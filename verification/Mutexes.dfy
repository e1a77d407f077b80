/** The sections of the mutex and resource-list code, as they update the mutexes and the VCPUs in place. */
module Mutexes {
  import opened Options
  import opened MutexSpec

  /** The mutex is locked, and not by `v`. */
  predicate HeldByOther(s: System, v: VcpuId, m: MutexId)
    requires m in s.mutexes
  {
    s.mutexes[m].lock > 0 && s.mutexes[m].owner != Some(v)
  }

  /** `v` runs and owns `m`, whose count is one higher; a mutex that was free is new at the end of its list. */
  predicate OnceMore(s: System, v: VcpuId, m: MutexId, s': System)
    requires m in s.mutexes && v in s.vcpus
  {
    && s'.mutexes == s.mutexes[m := Mutex(s.mutexes[m].lock + 1, Some(v))]
    && s'.vcpus == s.vcpus[v := Vcpu(Running, if s.mutexes[m].lock == 0 then s.vcpus[v].res + [m] else s.vcpus[v].res)]
  }

  class Mutexes {
    var mutexes: map<MutexId, Mutex>
    var vcpus: map<VcpuId, Vcpu>

    ghost function Now(): System
      reads this
    {
      System(mutexes, vcpus)
    }

    method ResourceAdd(v: VcpuId, m: MutexId)
      requires v in vcpus
      modifies this`vcpus
      ensures vcpus == old(vcpus)[v := old(vcpus[v]).(res := old(vcpus[v].res) + [m])]
    {
      vcpus := vcpus[v := vcpus[v].(res := vcpus[v].res + [m])];
    }

    method ResourceRemove(v: VcpuId, m: MutexId)
      requires v in vcpus
      modifies this`vcpus
      ensures vcpus == old(vcpus)[v := old(vcpus[v]).(res := Without(old(vcpus[v].res), m))]
    {
      vcpus := vcpus[v := vcpus[v].(res := Without(vcpus[v].res, m))];
    }

    /** The end of the lock loop: the mutex is free or already owned by `v`. */
    method Enter(v: VcpuId, m: MutexId)
      requires v in vcpus && m in mutexes && CanEnter(Now(), v, m)
      modifies this
      ensures Now() == Entered(old(Now()), v, m)
    {
      vcpus := vcpus[v := vcpus[v].(phase := Running)];
      if mutexes[m].lock == 0 {
        mutexes := mutexes[m := mutexes[m].(lock := 1)];
        ResourceAdd(v, m);
        mutexes := mutexes[m := mutexes[m].(owner := Some(v))];
      } else {
        mutexes := mutexes[m := mutexes[m].(lock := mutexes[m].lock + 1)];
      }
    }

    /** Locks `m`, or puts `v` to sleep in its wait queue. */
    method Lock(v: VcpuId, m: MutexId) returns (asleep: bool)
      requires v in vcpus && m in mutexes && vcpus[v].phase == Running
      modifies this
      ensures Step(old(Now()), Event.Lock(v, m), Now())
      ensures asleep <==> old(HeldByOther(Now(), v, m))
      ensures if asleep then mutexes == old(mutexes) && vcpus == old(vcpus)[v := old(vcpus[v]).(phase := Waiting(m))]
              else OnceMore(old(Now()), v, m, Now())
    {
      if mutexes[m].lock != 0 && mutexes[m].owner != Some(v) {
        vcpus := vcpus[v := vcpus[v].(phase := Waiting(m))];
        return true;
      }
      Enter(v, m);
      return false;
    }

    /** `v` wakes up: its time is over, it can lock the mutex now, or it goes back to sleep. */
    method Wake(v: VcpuId, expired: bool) returns (asleep: bool, ok: bool)
      requires v in vcpus && vcpus[v].phase.Waiting? && vcpus[v].phase.mutex in mutexes
      modifies this
      ensures Step(old(Now()), Event.Wake(v, expired), Now())
      ensures ok <==> !expired && !old(HeldByOther(Now(), v, vcpus[v].phase.mutex))
      ensures asleep <==> !expired && old(HeldByOther(Now(), v, vcpus[v].phase.mutex))
      ensures if ok then OnceMore(old(Now()), v, old(vcpus[v].phase.mutex), Now()) else mutexes == old(mutexes)
      ensures asleep ==> vcpus == old(vcpus)
      ensures expired ==> vcpus == old(vcpus)[v := old(vcpus[v]).(phase := Running)]
    {
      var m := vcpus[v].phase.mutex;
      if expired {
        vcpus := vcpus[v := vcpus[v].(phase := Running)];
        return false, false;
      }
      if mutexes[m].lock != 0 && mutexes[m].owner != Some(v) {
        return true, false;
      }
      Enter(v, m);
      return false, true;
    }

    method TryLock(v: VcpuId, m: MutexId) returns (ok: bool)
      requires v in vcpus && m in mutexes && vcpus[v].phase == Running
      modifies this
      ensures Step(old(Now()), Event.TryLock(v, m), Now())
      ensures ok <==> !old(HeldByOther(Now(), v, m))
      ensures if ok then OnceMore(old(Now()), v, m, Now()) else Now() == old(Now())
    {
      ok := false;
      if mutexes[m].lock == 0 {
        mutexes := mutexes[m := mutexes[m].(lock := mutexes[m].lock + 1)];
        ResourceAdd(v, m);
        mutexes := mutexes[m := mutexes[m].(owner := Some(v))];
        ok := true;
      } else if mutexes[m].owner == Some(v) {
        mutexes := mutexes[m := mutexes[m].(lock := mutexes[m].lock + 1)];
        ok := true;
        assert vcpus == vcpus[v := vcpus[v]];
      }
    }

    method Unlock(v: VcpuId, m: MutexId) returns (ok: bool)
      requires v in vcpus && m in mutexes && vcpus[v].phase == Running
      modifies this
      ensures Step(old(Now()), Event.Unlock(v, m), Now())
      ensures ok <==> old(mutexes[m].lock > 0 && mutexes[m].owner == Some(v))
    {
      ok := false;
      if mutexes[m].lock != 0 && mutexes[m].owner == Some(v) {
        mutexes := mutexes[m := mutexes[m].(lock := mutexes[m].lock - 1)];
        if mutexes[m].lock == 0 {
          mutexes := mutexes[m := mutexes[m].(owner := None)];
          ResourceRemove(v, m);
        }
        ok := true;
      }
    }

    /** Called for a mutex that was taken off the resource list of `v`. */
    method Cleanup(v: VcpuId, m: MutexId)
      requires v in vcpus && m in mutexes && vcpus[v].phase == Destroying(Some(m))
      modifies this
      ensures Now() == Cleaned(old(Now()), v, m)
    {
      if mutexes[m].lock != 0 && mutexes[m].owner == Some(v) {
        mutexes := mutexes[m := mutexes[m].(lock := 0)];
        mutexes := mutexes[m := mutexes[m].(owner := None)];
      }
      vcpus := vcpus[v := vcpus[v].(phase := Destroying(None))];
    }

    method PopTail(v: VcpuId) returns (m: MutexId)
      requires v in vcpus && vcpus[v].phase == Destroying(None) && vcpus[v].res != []
      modifies this`vcpus
      ensures Now() == Popped(old(Now()), v) && m == old(vcpus[v].res[|vcpus[v].res| - 1])
    {
      var r := vcpus[v].res;
      m := r[|r| - 1];
      vcpus := vcpus[v := Vcpu(Destroying(Some(m)), r[..|r| - 1])];
    }

    /**
      Cleans up whatever `v` still holds.  Undisturbed, this releases exactly the mutexes that `v` owns and leaves
      everybody else's alone.
     */
    method Flush(v: VcpuId)
      requires Inv(Now()) && v in vcpus && vcpus[v].phase == Destroying(None)
      modifies this
      ensures Inv(Now()) && v in vcpus && vcpus[v] == Vcpu(Destroying(None), [])
      ensures vcpus.Keys == old(vcpus.Keys) && forall w | w in vcpus && w != v :: vcpus[w] == old(vcpus[w])
      ensures mutexes.Keys == old(mutexes.Keys)
      ensures forall m | m in mutexes ::
                mutexes[m] == if old(mutexes[m].owner) == Some(v) then Mutex(0, None) else old(mutexes[m])
    {
      hide Inv, Cleaned, Popped;
      ghost var s0 := Now();
      while vcpus[v].res != []
        invariant Inv(Now()) && v in vcpus && vcpus[v].phase == Destroying(None)
        invariant Flushing(s0, Now(), v)
        decreases if v in vcpus then |vcpus[v].res| else 0
      {
        ghost var s1 := Now();
        PopStep(s1, v);
        var m := PopTail(v);
        ghost var s2 := Now();
        CleanupStep(s0, s1, s2, v, m);
        Cleanup(v, m);
      }
      NothingLeft(s0, Now(), v);
    }
  }

  /** On the way from `s0` only mutexes of `v` have been released, and only `v` has changed. */
  ghost predicate Flushing(s0: System, s: System, v: VcpuId) {
    && s.vcpus.Keys == s0.vcpus.Keys && (forall w | w in s.vcpus && w != v :: s.vcpus[w] == s0.vcpus[w])
    && s.mutexes.Keys == s0.mutexes.Keys
    && forall m {:trigger s.mutexes[m]} | m in s.mutexes ::
         s.mutexes[m] == s0.mutexes[m] || (s0.mutexes[m].owner == Some(v) && s.mutexes[m] == Mutex(0, None))
  }

  lemma PopStep(s: System, v: VcpuId)
    requires Inv(s) && v in s.vcpus && s.vcpus[v].phase == Destroying(None) && s.vcpus[v].res != []
    ensures Step(s, Pop(v), Popped(s, v)) && Inv(Popped(s, v))
  {
    StepKeepsInv(s, Pop(v), Popped(s, v));
  }

  lemma CleanupStep(s0: System, s1: System, s2: System, v: VcpuId, m: MutexId)
    requires Inv(s2) && v in s1.vcpus && s1.vcpus[v].phase == Destroying(None) && s1.vcpus[v].res != [] && s2 == Popped(s1, v)
    requires m == s1.vcpus[v].res[|s1.vcpus[v].res| - 1] && Flushing(s0, s1, v)
    ensures v in s2.vcpus && m in s2.mutexes && s2.vcpus[v].phase == Destroying(Some(m))
    ensures Inv(Cleaned(s2, v, m)) && Flushing(s0, Cleaned(s2, v, m), v)
    ensures Cleaned(s2, v, m).vcpus[v] == Vcpu(Destroying(None), s1.vcpus[v].res[..|s1.vcpus[v].res| - 1])
  {
    assert HeldOnce(s2, v, m);
    StepKeepsInv(s2, Cleanup(v), Cleaned(s2, v, m));
  }

  lemma NothingLeft(s0: System, s: System, v: VcpuId)
    requires Inv(s) && v in s.vcpus && s.vcpus[v] == Vcpu(Destroying(None), []) && Flushing(s0, s, v)
    ensures forall m | m in s.mutexes :: s.mutexes[m] == if s0.mutexes[m].owner == Some(v) then Mutex(0, None) else s0.mutexes[m]
  {
    forall m | m in s.mutexes ensures s.mutexes[m] == if s0.mutexes[m].owner == Some(v) then Mutex(0, None) else s0.mutexes[m] {
      assert HeldOnce(s, v, m);
    }
  }
}
