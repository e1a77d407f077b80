/** Runs of lock, timed lock, try-lock, unlock and VCPU destruction in any interleaving. */
module MutexRuns {
  import opened Options
  import opened MutexSpec

  ghost predicate Initial(s: System) {
    && (forall m | m in s.mutexes :: s.mutexes[m] == Mutex(0, None))
    && (forall v | v in s.vcpus :: s.vcpus[v] == Vcpu(Running, []))
  }

  ghost predicate Run(states: seq<System>, events: seq<Event>) {
    && |states| == |events| + 1 && Initial(states[0])
    && forall i | 0 <= i < |events| :: Step(states[i], events[i], states[i + 1])
  }

  lemma InitialIsSound(s: System)
    requires Initial(s)
    ensures Inv(s)
  {
    forall v, m | v in s.vcpus ensures HeldOnce(s, v, m) {
      assert s.vcpus[v].res == [];
    }
  }

  lemma {:induction false} RunKeepsInv(states: seq<System>, events: seq<Event>, k: nat)
    requires Run(states, events) && k < |states|
    ensures Inv(states[k])
  {
    hide Inv, Step;
    if k == 0 {
      InitialIsSound(states[0]);
    } else {
      RunKeepsInv(states, events, k - 1);
      StepKeepsInv(states[k - 1], events[k - 1], states[k]);
    }
  }

  // ------------------------------------------------------------------- history

  /** The call of `v` returns with `m` acquired. */
  ghost predicate Acquires(s: System, e: Event, v: VcpuId, m: MutexId) {
    && e.v == v && v in s.vcpus && m in s.mutexes && (forall w | w != v :: Held(s, w, m) == 0)
    && (e == Lock(v, m) || e == TryLock(v, m) || (e == Wake(v, false) && s.vcpus[v].phase == Waiting(m)))
  }

  /** The call of `v` gives `m` back once. */
  ghost predicate Releases(s: System, e: Event, v: VcpuId, m: MutexId) {
    e == Unlock(v, m) && m in s.mutexes && s.mutexes[m].lock > 0 && s.mutexes[m].owner == Some(v)
  }

  /** The clean-up of `v` takes `m` away from it. */
  ghost predicate Seizes(s: System, e: Event, v: VcpuId, m: MutexId) {
    e == Cleanup(v) && v in s.vcpus && s.vcpus[v].phase == Destroying(Some(m))
  }

  /** How many acquisitions of `m` by `v` have not been given back after `k` steps. */
  ghost function Nesting(states: seq<System>, events: seq<Event>, k: nat, v: VcpuId, m: MutexId): int
    requires k < |states| == |events| + 1
  {
    if k == 0 then 0
    else
      var n, s, e := Nesting(states, events, k - 1, v, m), states[k - 1], events[k - 1];
      if Acquires(s, e, v, m) then n + 1
      else if Releases(s, e, v, m) then n - 1
      else if Seizes(s, e, v, m) then 0
      else n
  }

  ghost function Held(s: System, v: VcpuId, m: MutexId): nat {
    if m in s.mutexes && s.mutexes[m].owner == Some(v) then s.mutexes[m].lock else 0
  }

  lemma HeldStep(s: System, e: Event, s': System, v: VcpuId, m: MutexId)
    requires Inv(s) && Step(s, e, s') && v in s.vcpus && m in s.mutexes
    ensures Held(s', v, m) ==
            if Acquires(s, e, v, m) then Held(s, v, m) + 1
            else if Releases(s, e, v, m) then Held(s, v, m) - 1
            else if Seizes(s, e, v, m) then 0
            else Held(s, v, m)
  {
    hide Inv;
    assert MutexOk(s, m) && HeldOnce(s, v, m) by { InvParts(s, v, m); }
    assert e.v in s.vcpus && HeldOnce(s, e.v, m) by { InvParts(s, e.v, m); }
    EnterExactly(s, v, m);
  }

  /** A VCPU can take a mutex exactly if no other one holds it: being the owner is no obstacle. */
  lemma EnterExactly(s: System, v: VcpuId, m: MutexId)
    requires Inv(s) && m in s.mutexes
    ensures CanEnter(s, v, m) <==> forall w | w != v :: Held(s, w, m) == 0
  {
    assert MutexOk(s, m);
    if s.mutexes[m].owner.Some? {
      var w := s.mutexes[m].owner.value;
      assert Held(s, w, m) == s.mutexes[m].lock;
    }
  }

  lemma InvParts(s: System, v: VcpuId, m: MutexId)
    requires Inv(s) && v in s.vcpus && m in s.mutexes
    ensures MutexOk(s, m) && HeldOnce(s, v, m) && VcpuOk(s, v)
  {
  }

  /** The lock count of a mutex is what its owner has acquired and not given back; all others hold nothing of it. */
  lemma {:induction false} CountIsNesting(states: seq<System>, events: seq<Event>, k: nat, v: VcpuId, m: MutexId)
    requires Run(states, events) && k < |states| && v in states[0].vcpus && m in states[0].mutexes
    ensures v in states[k].vcpus && m in states[k].mutexes && Nesting(states, events, k, v, m) == Held(states[k], v, m)
  {
    hide Inv, Step, Held, Acquires, Releases, Seizes;
    if k == 0 {
      assert Held(states[0], v, m) == 0 by { NothingHeld(states[0], v, m); }
    } else {
      CountIsNesting(states, events, k - 1, v, m);
      RunKeepsInv(states, events, k - 1);
      assert Step(states[k - 1], events[k - 1], states[k]);
      StepKeys(states[k - 1], events[k - 1], states[k]);
      HeldStep(states[k - 1], events[k - 1], states[k], v, m);
    }
  }

  lemma NothingHeld(s: System, v: VcpuId, m: MutexId)
    requires Initial(s)
    ensures Held(s, v, m) == 0
  {
  }

  /** A VCPU that has a mutex acquired gets it again at once; while another one has it acquired, it sleeps. */
  lemma OwnerNeverSleeps(states: seq<System>, events: seq<Event>, k: nat, v: VcpuId, w: VcpuId, m: MutexId)
    requires Run(states, events) && k < |events| && v in states[0].vcpus && w in states[0].vcpus && m in states[0].mutexes
    requires events[k] == Lock(v, m) && Nesting(states, events, k, w, m) > 0
    ensures v in states[k + 1].vcpus
    ensures v == w ==> states[k + 1].vcpus[v].phase == Running
                       && Nesting(states, events, k + 1, v, m) == Nesting(states, events, k, v, m) + 1
    ensures v != w ==> states[k + 1].vcpus[v].phase == Waiting(m)
                       && Nesting(states, events, k + 1, v, m) == Nesting(states, events, k, v, m) == 0
  {
    hide Inv, Nesting;
    CountIsNesting(states, events, k, v, m);
    CountIsNesting(states, events, k, w, m);
    CountIsNesting(states, events, k + 1, v, m);
    assert Step(states[k], events[k], states[k + 1]);
  }

  /** How often `v` acquires `m`, or gives it back, from step `i` up to step `k`. */
  ghost function Count(states: seq<System>, events: seq<Event>, i: nat, k: nat, v: VcpuId, m: MutexId, acquired: bool): nat
    requires i <= k < |states| == |events| + 1
    decreases k
  {
    if i == k then 0
    else
      var s, e := states[k - 1], events[k - 1];
      Count(states, events, i, k - 1, v, m, acquired)
      + if (if acquired then Acquires(s, e, v, m) else Releases(s, e, v, m)) then 1 else 0
  }

  lemma {:induction false} NestingAddsUp(states: seq<System>, events: seq<Event>, i: nat, k: nat, v: VcpuId, m: MutexId)
    requires i <= k < |states| == |events| + 1 && forall j | i <= j < k :: !Seizes(states[j], events[j], v, m)
    ensures Nesting(states, events, k, v, m) ==
            Nesting(states, events, i, v, m) + Count(states, events, i, k, v, m, true) - Count(states, events, i, k, v, m, false)
    decreases k
  {
    hide Acquires, Releases, Seizes;
    if i < k {
      NestingAddsUp(states, events, i, k - 1, v, m);
      assert !(Acquires(states[k - 1], events[k - 1], v, m) && Releases(states[k - 1], events[k - 1], v, m)) by {
        NotBoth(states[k - 1], events[k - 1], v, m);
      }
    }
  }

  lemma NotBoth(s: System, e: Event, v: VcpuId, m: MutexId)
    ensures !(Acquires(s, e, v, m) && Releases(s, e, v, m))
  {
  }

  /**
    What has been acquired n times must be given back n times: before another VCPU acquires the mutex, its owner has
    given back all it had acquired before and since, unless it was destroyed in between.
   */
  lemma GivenBackAsOften(states: seq<System>, events: seq<Event>, i: nat, k: nat, v: VcpuId, w: VcpuId, m: MutexId)
    requires Run(states, events) && i <= k < |events| && v in states[0].vcpus && w in states[0].vcpus && m in states[0].mutexes
    requires v != w && Acquires(states[k], events[k], w, m)
    requires forall j | i <= j < k :: !Seizes(states[j], events[j], v, m)
    ensures Count(states, events, i, k, v, m, false) ==
            Nesting(states, events, i, v, m) + Count(states, events, i, k, v, m, true)
  {
    hide Nesting, Count;
    CountIsNesting(states, events, k, v, m);
    NestingAddsUp(states, events, i, k, v, m);
    assert Held(states[k], v, m) == 0;
  }

  /** Two VCPUs never have the same mutex acquired at the same time. */
  lemma MutualExclusion(states: seq<System>, events: seq<Event>, k: nat, v: VcpuId, w: VcpuId, m: MutexId)
    requires Run(states, events) && k < |states| && v in states[0].vcpus && w in states[0].vcpus && m in states[0].mutexes
    requires Nesting(states, events, k, v, m) > 0 && Nesting(states, events, k, w, m) > 0
    ensures v == w
  {
    CountIsNesting(states, events, k, v, m);
    CountIsNesting(states, events, k, w, m);
  }

  /**
    At any time: a mutex is locked exactly if it has an owner; it is on the resource list of its owner exactly once
    (or just being cleaned up) and on no other list; and a VCPU that is gone has nothing acquired.
   */
  lemma ListsAreExact(states: seq<System>, events: seq<Event>, k: nat, v: VcpuId, m: MutexId)
    requires Run(states, events) && k < |states| && v in states[0].vcpus && m in states[0].mutexes
    ensures v in states[k].vcpus && m in states[k].mutexes
    ensures var s := states[k];
            && (s.mutexes[m].lock > 0 <==> s.mutexes[m].owner.Some?)
            && multiset(s.vcpus[v].res)[m] <= 1
            && (m in s.vcpus[v].res || s.vcpus[v].phase == Destroying(Some(m)) <==> s.mutexes[m].owner == Some(v))
            && !(m in s.vcpus[v].res && s.vcpus[v].phase == Destroying(Some(m)))
            && (s.vcpus[v].phase == Gone ==> s.mutexes[m].owner != Some(v) && Nesting(states, events, k, v, m) == 0)
  {
    CountIsNesting(states, events, k, v, m);
    RunKeepsInv(states, events, k);
    InvParts(states[k], v, m);
    assert m in states[k].vcpus[v].res <==> m in multiset(states[k].vcpus[v].res);
  }

  // ------------------------------------------------------------------ flushing

  /** What is left to do for a VCPU that is being destroyed. */
  function ToFlush(c: Vcpu): nat {
    2 * |c.res| + if c.phase.Destroying? && c.phase.popped.Some? then 1 else 0
  }

  /** While a VCPU is being destroyed no step of anyone adds to its list, and every step of its own flush takes from it. */
  lemma FlushAdvances(s: System, e: Event, s': System, v: VcpuId)
    requires Step(s, e, s') && v in s.vcpus && s.vcpus[v].phase.Destroying?
    ensures v in s'.vcpus && (s'.vcpus[v].phase.Destroying? || s'.vcpus[v].phase == Gone)
    ensures e.v != v ==> s'.vcpus[v] == s.vcpus[v]
    ensures e.v == v && s'.vcpus[v].phase != Gone ==> ToFlush(s'.vcpus[v]) < ToFlush(s.vcpus[v])
  {
  }

  /** The flush is never stuck: whatever the others do, its next step is possible. */
  lemma FlushGoesOn(s: System, v: VcpuId)
    requires Inv(s) && v in s.vcpus && s.vcpus[v].phase.Destroying?
    ensures exists e: Event, s': System :: e.v == v && Step(s, e, s')
  {
    var c := s.vcpus[v];
    if c.phase.popped.Some? {
      assert HeldOnce(s, v, c.phase.popped.value);
      assert Step(s, Cleanup(v), Cleaned(s, v, c.phase.popped.value));
    } else if c.res != [] {
      assert Step(s, Pop(v), Popped(s, v));
    } else {
      assert Step(s, Finish(v), Phased(s, v, Gone));
    }
  }
}
