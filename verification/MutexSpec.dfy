/**
  Recursive sleeping mutexes and the list of resources each VCPU holds, as a state machine: every section that
  runs under a wait-queue lock or a resource-list lock is one step, and the steps of all VCPUs interleave freely.
 */
module MutexSpec {
  import opened Options

  type MutexId = nat
  type VcpuId = nat

  datatype Mutex = Mutex(lock: nat, owner: Option<VcpuId>)

  /** A VCPU runs, sleeps in the wait queue of a mutex, is being destroyed, or is gone. */
  datatype Phase = Running | Waiting(mutex: MutexId) | Destroying(popped: Option<MutexId>) | Gone

  datatype Vcpu = Vcpu(phase: Phase, res: seq<MutexId>)

  datatype System = System(mutexes: map<MutexId, Mutex>, vcpus: map<VcpuId, Vcpu>)

  datatype Event =
    | Lock(v: VcpuId, m: MutexId)
    | Wake(v: VcpuId, expired: bool)
    | TryLock(v: VcpuId, m: MutexId)
    | Unlock(v: VcpuId, m: MutexId)
    | Destroy(v: VcpuId)
    | Pop(v: VcpuId)
    | Cleanup(v: VcpuId)
    | Finish(v: VcpuId)

  // ------------------------------------------------------------ resource list

  /** The list without the first occurrence of `m`. */
  function Without(list: seq<MutexId>, m: MutexId): seq<MutexId> {
    if list == [] then [] else if list[0] == m then list[1..] else [list[0]] + Without(list[1..], m)
  }

  lemma {:induction false} WithoutCounts(list: seq<MutexId>, m: MutexId, k: MutexId)
    requires m in list
    ensures multiset(Without(list, m))[k] == multiset(list)[k] - if k == m then 1 else 0
  {
    assert list == [list[0]] + list[1..];
    if list[0] != m {
      WithoutCounts(list[1..], m, k);
    }
  }

  /** How often `v` counts `m` as its own: on its list, or taken off it for the clean-up. */
  function Holds(c: Vcpu, m: MutexId): nat {
    multiset(c.res)[m] + if c.phase == Destroying(Some(m)) then 1 else 0
  }

  // -------------------------------------------------------------------- steps

  predicate CanEnter(s: System, v: VcpuId, m: MutexId)
    requires m in s.mutexes
  {
    s.mutexes[m].lock == 0 || s.mutexes[m].owner == Some(v)
  }

  /** `v` takes `m`: for the first time, or once more. */
  function Entered(s: System, v: VcpuId, m: MutexId): System
    requires m in s.mutexes && v in s.vcpus
  {
    if s.mutexes[m].lock == 0 then
      s.(mutexes := s.mutexes[m := Mutex(1, Some(v))],
         vcpus := s.vcpus[v := Vcpu(Running, s.vcpus[v].res + [m])])
    else
      s.(mutexes := s.mutexes[m := s.mutexes[m].(lock := s.mutexes[m].lock + 1)],
         vcpus := s.vcpus[v := s.vcpus[v].(phase := Running)])
  }

  function Phased(s: System, v: VcpuId, phase: Phase): System
    requires v in s.vcpus
  {
    s.(vcpus := s.vcpus[v := s.vcpus[v].(phase := phase)])
  }

  function Left(s: System, v: VcpuId, m: MutexId): System
    requires m in s.mutexes && v in s.vcpus
  {
    if s.mutexes[m].lock == 0 || s.mutexes[m].owner != Some(v) then s
    else if s.mutexes[m].lock > 1 then s.(mutexes := s.mutexes[m := s.mutexes[m].(lock := s.mutexes[m].lock - 1)])
    else s.(mutexes := s.mutexes[m := Mutex(0, None)],
            vcpus := s.vcpus[v := s.vcpus[v].(res := Without(s.vcpus[v].res, m))])
  }

  function Popped(s: System, v: VcpuId): System
    requires v in s.vcpus && s.vcpus[v].res != []
  {
    var r := s.vcpus[v].res;
    s.(vcpus := s.vcpus[v := Vcpu(Destroying(Some(r[|r| - 1])), r[..|r| - 1])])
  }

  function Cleaned(s: System, v: VcpuId, m: MutexId): System
    requires v in s.vcpus && m in s.mutexes
  {
    var t := Phased(s, v, Destroying(None));
    if s.mutexes[m].lock != 0 && s.mutexes[m].owner == Some(v) then t.(mutexes := s.mutexes[m := Mutex(0, None)]) else t
  }

  ghost predicate Step(s: System, e: Event, s': System) {
    e.v in s.vcpus &&
    var c := s.vcpus[e.v];
    match e
    case Lock(v, m) =>
      && m in s.mutexes && c.phase == Running
      && s' == if CanEnter(s, v, m) then Entered(s, v, m) else Phased(s, v, Waiting(m))
    case Wake(v, expired) =>
      && c.phase.Waiting? && c.phase.mutex in s.mutexes
      && s' == if expired then Phased(s, v, Running) else if CanEnter(s, v, c.phase.mutex) then Entered(s, v, c.phase.mutex) else s
    case TryLock(v, m) =>
      && m in s.mutexes && c.phase == Running
      && s' == if CanEnter(s, v, m) then Entered(s, v, m) else s
    case Unlock(v, m) => m in s.mutexes && c.phase == Running && s' == Left(s, v, m)
    case Destroy(v) => (c.phase == Running || c.phase.Waiting?) && s' == Phased(s, v, Destroying(None))
    case Pop(v) => c.phase == Destroying(None) && c.res != [] && s' == Popped(s, v)
    case Cleanup(v) => c.phase.Destroying? && c.phase.popped.Some? && c.phase.popped.value in s.mutexes && s' == Cleaned(s, v, c.phase.popped.value)
    case Finish(v) => c.phase == Destroying(None) && c.res == [] && s' == Phased(s, v, Gone)
  }

  // ---------------------------------------------------------------- invariant

  ghost predicate MutexOk(s: System, m: MutexId)
    requires m in s.mutexes
  {
    && (s.mutexes[m].lock > 0 <==> s.mutexes[m].owner.Some?)
    && (s.mutexes[m].owner.Some? ==> s.mutexes[m].owner.value in s.vcpus)
  }

  /** A held mutex counts once with its owner, and not at all with anybody else. */
  ghost predicate HeldOnce(s: System, v: VcpuId, m: MutexId)
    requires v in s.vcpus
  {
    Holds(s.vcpus[v], m) == if m in s.mutexes && s.mutexes[m].owner == Some(v) then 1 else 0
  }

  ghost predicate VcpuOk(s: System, v: VcpuId)
    requires v in s.vcpus
  {
    s.vcpus[v].phase == Gone ==> s.vcpus[v].res == []
  }

  ghost predicate Inv(s: System) {
    && (forall m {:trigger MutexOk(s, m)} | m in s.mutexes :: MutexOk(s, m))
    && (forall v {:trigger VcpuOk(s, v)} | v in s.vcpus :: VcpuOk(s, v))
    && (forall v, m {:trigger HeldOnce(s, v, m)} | v in s.vcpus :: HeldOnce(s, v, m))
  }

  lemma EnteredKeeps(s: System, v: VcpuId, m: MutexId, w: VcpuId, k: MutexId)
    requires m in s.mutexes && v in s.vcpus && w in s.vcpus && CanEnter(s, v, m)
    requires !s.vcpus[v].phase.Destroying? && VcpuOk(s, w) && MutexOk(s, m) && HeldOnce(s, w, k)
    ensures var s' := Entered(s, v, m);
            && VcpuOk(s', w) && HeldOnce(s', w, k) && (k in s.mutexes && MutexOk(s, k) ==> MutexOk(s', k))
  {
    assert multiset(s.vcpus[v].res + [m]) == multiset(s.vcpus[v].res) + multiset{m};
  }

  lemma LeftKeeps(s: System, v: VcpuId, m: MutexId, w: VcpuId, k: MutexId)
    requires m in s.mutexes && v in s.vcpus && w in s.vcpus && s.vcpus[v].phase == Running
    requires VcpuOk(s, w) && MutexOk(s, m) && HeldOnce(s, w, k) && HeldOnce(s, v, m)
    ensures var s' := Left(s, v, m);
            && VcpuOk(s', w) && HeldOnce(s', w, k) && (k in s.mutexes && MutexOk(s, k) ==> MutexOk(s', k))
  {
    if s.mutexes[m].lock == 1 && s.mutexes[m].owner == Some(v) {
      assert multiset(s.vcpus[v].res)[m] == 1;
      WithoutCounts(s.vcpus[v].res, m, k);
    }
  }

  lemma PhasedKeeps(s: System, v: VcpuId, p: Phase, w: VcpuId, k: MutexId)
    requires v in s.vcpus && w in s.vcpus && VcpuOk(s, w) && HeldOnce(s, w, k)
    requires s.vcpus[v].phase.Destroying? ==> s.vcpus[v].phase.popped == None
    requires (p.Destroying? ==> p.popped == None) && (p == Gone ==> s.vcpus[v].res == [])
    ensures var s' := Phased(s, v, p);
            && VcpuOk(s', w) && HeldOnce(s', w, k) && (k in s.mutexes && MutexOk(s, k) ==> MutexOk(s', k))
  {
  }

  lemma PoppedKeeps(s: System, v: VcpuId, w: VcpuId, k: MutexId)
    requires v in s.vcpus && w in s.vcpus && VcpuOk(s, w) && HeldOnce(s, w, k)
    requires s.vcpus[v].phase == Destroying(None) && s.vcpus[v].res != []
    ensures var s' := Popped(s, v);
            && VcpuOk(s', w) && HeldOnce(s', w, k) && (k in s.mutexes && MutexOk(s, k) ==> MutexOk(s', k))
  {
    var r := s.vcpus[v].res;
    assert r == r[..|r| - 1] + [r[|r| - 1]];
    assert multiset(r)[k] == multiset(r[..|r| - 1])[k] + multiset([r[|r| - 1]])[k];
  }

  lemma CleanedKeeps(s: System, v: VcpuId, m: MutexId, w: VcpuId, k: MutexId)
    requires v in s.vcpus && w in s.vcpus && VcpuOk(s, w) && HeldOnce(s, w, k) && HeldOnce(s, v, m)
    requires m in s.mutexes && MutexOk(s, m) && s.vcpus[v].phase == Destroying(Some(m))
    ensures var s' := Cleaned(s, v, m);
            && VcpuOk(s', w) && HeldOnce(s', w, k) && (k in s.mutexes && MutexOk(s, k) ==> MutexOk(s', k))
  {
  }

  lemma StepKeepsOne(s: System, e: Event, s': System, w: VcpuId, k: MutexId)
    requires Inv(s) && Step(s, e, s') && w in s.vcpus
    ensures s'.vcpus.Keys == s.vcpus.Keys && s'.mutexes.Keys == s.mutexes.Keys
    ensures VcpuOk(s', w) && HeldOnce(s', w, k) && (k in s.mutexes ==> MutexOk(s', k))
  {
    hide Holds, Entered, Left, Popped, Cleaned, Phased, HeldOnce, MutexOk, VcpuOk, CanEnter;
    StepKeys(s, e, s');
    assert VcpuOk(s, w) && HeldOnce(s, w, k) && (k in s.mutexes ==> MutexOk(s, k));
    var v, c := e.v, s.vcpus[e.v];
    match e {
      case Lock(_, m) =>
        assert MutexOk(s, m);
        if CanEnter(s, v, m) {
          EnteredKeeps(s, v, m, w, k);
        } else {
          PhasedKeeps(s, v, Waiting(m), w, k);
        }
      case Wake(_, expired) =>
        assert MutexOk(s, c.phase.mutex);
        if expired {
          PhasedKeeps(s, v, Running, w, k);
        } else if CanEnter(s, v, c.phase.mutex) {
          EnteredKeeps(s, v, c.phase.mutex, w, k);
        }
      case TryLock(_, m) =>
        assert MutexOk(s, m);
        if CanEnter(s, v, m) {
          EnteredKeeps(s, v, m, w, k);
        }
      case Unlock(_, m) =>
        assert MutexOk(s, m) && HeldOnce(s, v, m);
        LeftKeeps(s, v, m, w, k);
      case Destroy(_) => PhasedKeeps(s, v, Destroying(None), w, k);
      case Pop(_) => PoppedKeeps(s, v, w, k);
      case Cleanup(_) =>
        assert MutexOk(s, c.phase.popped.value) && HeldOnce(s, v, c.phase.popped.value);
        CleanedKeeps(s, v, c.phase.popped.value, w, k);
      case Finish(_) => PhasedKeeps(s, v, Gone, w, k);
    }
  }

  lemma StepKeys(s: System, e: Event, s': System)
    requires Step(s, e, s')
    ensures s'.vcpus.Keys == s.vcpus.Keys && s'.mutexes.Keys == s.mutexes.Keys
  {
  }

  lemma StepKeepsInv(s: System, e: Event, s': System)
    requires Inv(s) && Step(s, e, s')
    ensures Inv(s')
  {
    hide Inv, Step, HeldOnce, MutexOk, VcpuOk;
    StepKeys(s, e, s');
    assert e.v in s.vcpus by { StepHasVcpu(s, e, s'); }
    forall w, k | w in s.vcpus ensures VcpuOk(s', w) && HeldOnce(s', w, k) && (k in s.mutexes ==> MutexOk(s', k)) {
      StepKeepsOne(s, e, s', w, k);
    }
    assert forall k | k in s'.mutexes :: HeldOnce(s', e.v, k) && MutexOk(s', k);
    assert forall w | w in s'.vcpus :: HeldOnce(s', w, 0) && VcpuOk(s', w);
    InvFrom(s');
  }

  lemma StepHasVcpu(s: System, e: Event, s': System)
    requires Step(s, e, s')
    ensures e.v in s.vcpus
  {
  }

  lemma InvFrom(s: System)
    requires forall m {:trigger MutexOk(s, m)} | m in s.mutexes :: MutexOk(s, m)
    requires forall v {:trigger VcpuOk(s, v)} | v in s.vcpus :: VcpuOk(s, v)
    requires forall v, m {:trigger HeldOnce(s, v, m)} | v in s.vcpus :: HeldOnce(s, v, m)
    ensures Inv(s)
  {
  }
}
