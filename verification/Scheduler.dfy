/** The scheduler's operations, as they update the VCPUs and the per-CPU control blocks in place. */
module Scheduler {
  import opened Options
  import opened SchedulerState

  datatype Rc = Ok | Invalid

  /** The VCPUs in `passed` were taken from the queue of `h` and are not ready, nor the current one. */
  ghost predicate Passed(s: Sched, h: CpuId, current: VcpuId, passed: multiset<VcpuId>)
    requires h in s.cpus
  {
    && passed <= s.cpus[h].rq
    && forall v | v in passed :: v in s.vcpus && s.vcpus[v].state != Ready && v != current
  }

  /** The state after the VCPUs in `passed` were taken from the queue of `h`. */
  ghost function Past(s: Sched, h: CpuId, passed: multiset<VcpuId>): Sched
    requires h in s.cpus
  {
    s.(cpus := s.cpus[h := s.cpus[h].(rq := s.cpus[h].rq - passed)])
  }

  lemma PastIs(s: Sched, h: CpuId, passed: multiset<VcpuId>)
    requires h in s.cpus
    ensures var r := Past(s, h, passed);
            && r.vcpus == s.vcpus && r.ipis == s.ipis && h in r.cpus && r.cpus[h].rq == s.cpus[h].rq - passed
            && r.cpus[h].current == s.cpus[h].current && r.cpus[h].irqNs == s.cpus[h].irqNs
            && r.cpus.Keys == s.cpus.Keys && (forall g | g in s.cpus && g != h :: r.cpus[g] == s.cpus[g])
            && (forall v | v in r.cpus[h].rq :: v in s.cpus[h].rq)
            && r.cpus[h] == s.cpus[h].(rq := s.cpus[h].rq - passed)
  {
  }

  lemma NonePassed(s: Sched, h: CpuId, current: VcpuId)
    requires h in s.cpus
    ensures Passed(s, h, current, multiset{}) && Past(s, h, multiset{}) == s
  {
    assert s.cpus[h].rq - multiset{} == s.cpus[h].rq;
  }

  lemma PassOne(s: Sched, h: CpuId, current: VcpuId, passed: multiset<VcpuId>, v: VcpuId)
    requires h in s.cpus && Passed(s, h, current, passed)
    requires v in s.cpus[h].rq - passed && v in s.vcpus && v != current && s.vcpus[v].state != Ready
    ensures Passed(s, h, current, passed + multiset{v})
    ensures Past(s, h, passed + multiset{v}) == s.(cpus := s.cpus[h := s.cpus[h].(rq := s.cpus[h].rq - passed - multiset{v})])
    ensures |s.cpus[h].rq - passed - multiset{v}| < |s.cpus[h].rq - passed|
  {
    var left := s.cpus[h].rq - passed;
    assert left == (left - multiset{v}) + multiset{v};
    assert left - multiset{v} == s.cpus[h].rq - (passed + multiset{v});
  }

  lemma CanTake(s: Sched, h: CpuId, current: VcpuId, passed: multiset<VcpuId>, v: VcpuId)
    requires h in s.cpus && s.cpus[h].current == Some(current) && Passed(s, h, current, passed)
    requires v in s.cpus[h].rq - passed && v in s.vcpus && (v == current || s.vcpus[v].state == Ready)
    ensures Picked(s, h, passed, v)
  {
  }

  lemma NothingLeft(s: Sched, h: CpuId, current: VcpuId, passed: multiset<VcpuId>)
    requires h in s.cpus && s.cpus[h].current == Some(current) && Passed(s, h, current, passed)
    requires s.cpus[h].rq - passed == multiset{}
    ensures Starved(s, h)
  {
    forall v | v in s.cpus[h].rq ensures v in passed {
      assert (s.cpus[h].rq - passed)[v] == 0;
    }
  }

  lemma EnterAfterwards(c: Vcpu, to: State, t: int, r: bool)
    ensures var n := if to == Reset && c.state != Unknown then c.resets + 1 else c.resets;
            Enter(c.(resumed := r, resets := n), to, t).(resets := n) == Enter(c, to, t).(resumed := r)
  {
  }

  lemma Untouched(s: Sched, v: VcpuId, to: State)
    requires v in s.vcpus && s.vcpus[v].hcpu in s.cpus && (to == Unknown || to == Running)
    ensures QueueAfter(s, v, to) == s.cpus[s.vcpus[v].hcpu].rq
    ensures ResumedAfter(s.vcpus[v].state, s.vcpus[v].resumed, to) == s.vcpus[v].resumed
  {
  }

  class Scheduler {
    var vcpus: map<VcpuId, Vcpu>
    var cpus: map<CpuId, Cpu>
    var ipis: multiset<Ipi>

    ghost function Now(): Sched
      reads this
    {
      Sched(vcpus, cpus, ipis)
    }

    predicate Known(v: VcpuId)
      reads this
    {
      v in vcpus && vcpus[v].hcpu in cpus
    }

    // The order in which a queue is served is not fixed: any VCPU in it may come first.
    method Dequeue(h: CpuId) returns (found: bool, next: VcpuId)
      requires h in cpus
      modifies this`cpus
      ensures found <==> old(cpus[h].rq) != multiset{}
      ensures found ==> next in old(cpus[h].rq)
                        && cpus == old(cpus)[h := old(cpus[h]).(rq := old(cpus[h].rq) - multiset{next})]
      ensures !found ==> cpus == old(cpus)
    {
      if cpus[h].rq == multiset{} {
        return false, 0;
      }
      next :| next in cpus[h].rq;
      cpus := cpus[h := cpus[h].(rq := cpus[h].rq - multiset{next})];
      found := true;
    }

    method Enqueue(h: CpuId, v: VcpuId)
      requires h in cpus
      modifies this`cpus
      ensures cpus == old(cpus)[h := old(cpus[h]).(rq := old(cpus[h].rq) + multiset{v})]
    {
      cpus := cpus[h := cpus[h].(rq := cpus[h].rq + multiset{v})];
    }

    method Detach(h: CpuId, v: VcpuId)
      requires h in cpus
      modifies this`cpus
      ensures cpus == old(cpus)[h := old(cpus[h]).(rq := old(cpus[h].rq) - multiset{v})]
    {
      cpus := cpus[h := cpus[h].(rq := cpus[h].rq - multiset{v})];
    }

    /**
      Asks for the VCPU to be brought into the state `to`.  `outranked` says whether the queue holds a VCPU of
      higher priority than the current one; `preempt` asks for a context switch.
     */
    method StateChange(v: VcpuId, to: State, t: int, outranked: bool) returns (rc: Rc, preempt: bool)
      requires Known(v)
      modifies this`vcpus, this`cpus
      ensures Now() == Changed(old(Now()), v, to, t)
      ensures rc == Invalid <==> old(Judge(vcpus[v].state, vcpus[v].resumed, to)) == Refuse
      ensures preempt <==>
              var c, current := old(vcpus[v]), old(IsCurrent(Now(), v));
              match to
              case Unknown => false
              case Reset => c.state == Running && current
              case Ready => c.state == Running || ((c.state == Reset || c.state == Paused) && !current && outranked)
              case Running => false
              case Paused => (c.state == Ready || c.state == Running) && !c.resumed && current
              case Halted => (c.state == Ready || c.state == Running) && current
    {
      hide ResumedAfter, QueueAfter, Enter;
      ghost var c := vcpus[v];
      EnterAfterwards(c, to, t, ResumedAfter(c.state, c.resumed, to));
      var skip := false;
      rc, preempt := Ok, false;
      match to {
        case Unknown => Untouched(Now(), v, to);
        case Reset => skip, preempt := Restart(v);
        case Ready => skip, rc, preempt := Resume(v, outranked);
        case Running =>
          Untouched(Now(), v, to);
          rc := Invalid;
        case _ => skip, rc, preempt := Stop(v, to);
      }
      if rc == Ok && !skip {
        Record(v, to, t);
      }
    }

    /** Resetting, up to the state itself; the set-up of a new VCPU and the initialization of its registers are left out. */
    method Restart(v: VcpuId) returns (skip: bool, preempt: bool)
      requires Known(v)
      modifies this`vcpus, this`cpus
      ensures vcpus == old(vcpus)[v := old(vcpus[v]).(
                         resumed := ResumedAfter(old(vcpus[v].state), old(vcpus[v].resumed), Reset),
                         resets := old(vcpus[v].resets) + if old(vcpus[v].state) in {Unknown, Reset} then 0 else 1)]
      ensures cpus == old(cpus)[old(vcpus[v].hcpu) := old(cpus[vcpus[v].hcpu]).(rq := old(QueueAfter(Now(), v, Reset)))]
      ensures skip <==> old(vcpus[v].state) == Reset
      ensures preempt <==> old(vcpus[v].state) == Running && old(IsCurrent(Now(), v))
    {
      var h, current := vcpus[v].hcpu, vcpus[v].state;
      skip, preempt := false, false;
      if current == Unknown {
      } else if current != Reset {
        var c := vcpus[v].(resumed := false);
        if cpus[h].current != Some(v) && current == Ready {
          Detach(h, v);
        }
        if cpus[h].current == Some(v) && current == Running {
          preempt := true;
        }
        vcpus := vcpus[v := c.(resets := c.resets + 1)];
      } else {
        skip := true;
      }
    }

    /** Making ready, up to the state itself. */
    method Resume(v: VcpuId, outranked: bool) returns (skip: bool, rc: Rc, preempt: bool)
      requires Known(v)
      modifies this`vcpus, this`cpus
      ensures vcpus == old(vcpus)[v := old(vcpus[v]).(resumed := ResumedAfter(old(vcpus[v].state), old(vcpus[v].resumed), Ready))]
      ensures cpus == old(cpus)[old(vcpus[v].hcpu) := old(cpus[vcpus[v].hcpu]).(rq := old(QueueAfter(Now(), v, Ready)))]
      ensures skip <==> old(Judge(vcpus[v].state, vcpus[v].resumed, Ready)) == Skip
      ensures rc == Invalid <==> old(Judge(vcpus[v].state, vcpus[v].resumed, Ready)) == Refuse
      ensures preempt <==> old(vcpus[v].state) == Running
                           || (old(vcpus[v].state) in {Reset, Paused} && !old(IsCurrent(Now(), v)) && outranked)
    {
      var h, current := vcpus[v].hcpu, vcpus[v].state;
      skip, rc, preempt := false, Ok, false;
      if current == Reset || current == Paused {
        Enqueue(h, v);
        if cpus[h].current != Some(v) {
          preempt := outranked;
        }
      } else if current == Running {
        vcpus := vcpus[v := vcpus[v].(resumed := true)];
        preempt, skip := true, true;
      } else if current == Ready {
        skip := true;
      } else {
        rc := Invalid;
      }
    }

    /** Pausing and halting, up to the state itself. */
    method Stop(v: VcpuId, to: State) returns (skip: bool, rc: Rc, preempt: bool)
      requires Known(v) && (to == Paused || to == Halted)
      modifies this`vcpus, this`cpus
      ensures vcpus == old(vcpus)[v := old(vcpus[v]).(resumed := ResumedAfter(old(vcpus[v].state), old(vcpus[v].resumed), to))]
      ensures cpus == old(cpus)[old(vcpus[v].hcpu) := old(cpus[vcpus[v].hcpu]).(rq := old(QueueAfter(Now(), v, to)))]
      ensures skip <==> old(Judge(vcpus[v].state, vcpus[v].resumed, to)) == Skip
      ensures rc == Invalid <==> old(Judge(vcpus[v].state, vcpus[v].resumed, to)) == Refuse
      ensures preempt <==> old(Judge(vcpus[v].state, vcpus[v].resumed, to)) == Go && old(IsCurrent(Now(), v))
    {
      var c := vcpus[v];
      var h, current := c.hcpu, c.state;
      skip, rc, preempt := false, Ok, false;
      if to == Paused && current == Paused {
        skip := true;
      } else if current == Ready || current == Running {
        var resumed := c.resumed;
        vcpus := vcpus[v := vcpus[v].(resumed := false)];
        if resumed && to == Paused {
          skip := true;
        } else if cpus[h].current == Some(v) {
          preempt := true;
        } else if current == Ready {
          Detach(h, v);
        }
      } else {
        rc := Invalid;
      }
    }

    /** Books the time spent in the old state and enters the new one. */
    method Record(v: VcpuId, to: State, t: int)
      requires v in vcpus
      modifies this`vcpus
      ensures vcpus == old(vcpus)[v := Enter(old(vcpus[v]), to, t).(resets := old(vcpus[v].resets))]
    {
      var c := vcpus[v];
      match c.state {
        case Ready => c := c.(ready := c.ready + (t - c.tstamp));
        case Running => c := c.(running := c.running + (t - c.tstamp));
        case Paused => c := c.(paused := c.paused + (t - c.tstamp));
        case Halted => c := c.(halted := c.halted + (t - c.tstamp));
        case _ =>
      }
      if to == Reset {
        c := c.(ready := 0, running := 0, paused := 0, halted := 0, resetTstamp := t);
      }
      c := c.(state := to, tstamp := t);
      vcpus := vcpus[v := c];
    }

    /** Makes `next` the running VCPU of `h`. */
    method Start(h: CpuId, next: VcpuId, t: int)
      requires h in cpus && next in vcpus
      modifies this`vcpus, this`cpus
      ensures vcpus == old(vcpus)[next := Started(old(vcpus[next]), t)]
      ensures cpus == old(cpus)[h := old(cpus[h]).(current := Some(next), currentIrqNs := old(cpus[h].irqNs))]
    {
      var n := vcpus[next];
      n := n.(ready := n.ready + (t - n.tstamp));
      n := n.(state := Running);
      n := n.(resumed := false, tstamp := t);
      vcpus := vcpus[next := n];
      cpus := cpus[h := cpus[h].(current := Some(next), currentIrqNs := cpus[h].irqNs)];
    }

    /** The first switch on a host CPU that has no current VCPU yet. */
    method Next1(h: CpuId, t: int) returns (ok: bool, ghost passed: multiset<VcpuId>, ghost next: VcpuId)
      requires h in cpus && cpus[h].current == None && forall v | v in cpus[h].rq :: v in vcpus
      modifies this`vcpus, this`cpus
      ensures ok ==> Picked(old(Now()), h, passed, next) && Now() == Taken(old(Now()), h, passed, next, t)
      ensures ok ==> vcpus[next].state == Running && !vcpus[next].resumed
      ensures !ok ==> Starved(old(Now()), h)
    {
      var first;
      ok, first := Dequeue(h);
      passed, next := multiset{}, first;
      assert old(cpus[h].rq) - passed == old(cpus[h].rq);
      if ok {
        Start(h, first, t);
      }
    }

    /** The switch away from the current VCPU, which goes back to the queue if it was running. */
    method Next2(h: CpuId, t: int) returns (ok: bool, ghost passed: multiset<VcpuId>, ghost next: VcpuId)
      requires h in cpus && cpus[h].current.Some? && cpus[h].current.value in vcpus && forall v | v in cpus[h].rq :: v in vcpus
      modifies this`vcpus, this`cpus
      ensures ok ==> Picked(PutBack(old(Now()), h, t), h, passed, next) && Now() == Taken(PutBack(old(Now()), h, t), h, passed, next, t)
      ensures ok ==> vcpus[next].state == Running && !vcpus[next].resumed
      ensures !ok ==> Starved(PutBack(old(Now()), h, t), h)
    {
      var current := cpus[h].current.value;
      if vcpus[current].state == Running {
        var c := vcpus[current];
        c := c.(running := c.running + (t - c.tstamp));
        c := c.(running := c.running - (cpus[h].irqNs - cpus[h].currentIrqNs));
        cpus := cpus[h := cpus[h].(currentIrqNs := cpus[h].irqNs)];
        c := c.(state := Ready, tstamp := t);
        vcpus := vcpus[current := c];
        Enqueue(h, current);
      }
      assert Now() == PutBack(old(Now()), h, t);
      ok, passed, next := Claim(h, current, t);
    }

    /** Takes VCPUs from the queue until one can be run. */
    method Claim(h: CpuId, current: VcpuId, t: int) returns (ok: bool, ghost passed: multiset<VcpuId>, ghost next: VcpuId)
      requires h in cpus && cpus[h].current == Some(current) && forall v | v in cpus[h].rq :: v in vcpus
      modifies this`vcpus, this`cpus
      ensures ok ==> Picked(old(Now()), h, passed, next) && Now() == Taken(old(Now()), h, passed, next, t)
      ensures ok ==> vcpus[next].state == Running && !vcpus[next].resumed
      ensures !ok ==> Starved(old(Now()), h)
    {
      hide Passed, Picked, Starved, Past;
      ghost var s := Now();
      passed := multiset{};
      NonePassed(s, h, current);
      while true
        invariant h in cpus && Now() == Past(s, h, passed) && Passed(s, h, current, passed)
        decreases |cpus[h].rq|
      {
        var taken;
        PastIs(s, h, passed);
        ok, taken := Dequeue(h);
        next := taken;
        if !ok {
          NothingLeft(s, h, current, passed);
          return;
        }
        if taken == current || vcpus[taken].state == Ready {
          CanTake(s, h, current, passed, taken);
          Start(h, taken, t);
          return;
        }
        PassOne(s, h, current, passed, taken);
        passed := passed + multiset{taken};
      }
    }

    /** A context switch on `h`, unless preemption is disabled for the current VCPU. */
    method Switch(h: CpuId, t: int, preemptible: bool) returns (ok: bool, ghost passed: multiset<VcpuId>, ghost next: VcpuId)
      requires h in cpus && (cpus[h].current.Some? ==> cpus[h].current.value in vcpus)
      requires forall v | v in cpus[h].rq :: v in vcpus
      modifies this`vcpus, this`cpus
      ensures ok && (preemptible || old(cpus[h].current) == None) ==> Step(old(Now()), Event.Switch(h, t, passed, next), Now())
      ensures ok && !preemptible && old(cpus[h].current) != None ==> Now() == old(Now())
      ensures ok && (preemptible || old(cpus[h].current) == None) ==>
                && next in vcpus && vcpus[next].state == Running && !vcpus[next].resumed && vcpus[next].tstamp == t
                && cpus[h].current == Some(next)
      ensures !ok ==> Starved(PutBack(old(Now()), h, t), h)
    {
      if cpus[h].current.Some? {
        if preemptible {
          ok, passed, next := Next2(h, t);
        } else {
          ok, passed, next := true, multiset{}, 0;
        }
      } else {
        ok, passed, next := Next1(h, t);
      }
    }

    method SetHcpu(v: VcpuId, h: CpuId) returns (rc: Rc)
      requires v in vcpus
      modifies this`vcpus, this`ipis
      ensures Now() == HcpuSet(old(Now()), v, h)
      ensures rc == Invalid <==> old(vcpus[v].hcpu) != h && h !in old(vcpus[v].affinity)
    {
      var c := vcpus[v];
      if c.hcpu == h {
        return Ok;
      }
      if h !in c.affinity {
        return Invalid;
      }
      var migrate := false;
      if c.state == Ready || c.state == Running {
        migrate := true;
      } else {
        vcpus := vcpus[v := c.(hcpu := h)];
      }
      if migrate {
        ipis := ipis + multiset{Ipi(v, c.hcpu, h)};
      }
      return Ok;
    }

    /** The host CPU `i.from` serves the request to hand the VCPU over. */
    method MigrateVcpu(i: Ipi)
      requires i in ipis && i.vcpu in vcpus && i.from in cpus && i.to in cpus
      modifies this
      ensures Now() == Migrated(old(Now()), i)
    {
      ipis := ipis - multiset{i};
      var c := vcpus[i.vcpu];
      if c.state != Ready || c.hcpu != i.from || c.hcpu == i.to {
        return;
      }
      Detach(i.from, i.vcpu);
      vcpus := vcpus[i.vcpu := c.(hcpu := i.to)];
      Enqueue(i.to, i.vcpu);
    }

    /** Brings the counters of `v` up to date and reads them. */
    method VcpuStats(v: VcpuId, t: int) returns (c: Vcpu, sinceReset: int)
      requires v in vcpus
      modifies this`vcpus
      ensures Now() == Synced(old(Now()), v, t) && c == vcpus[v] && sinceReset == t - c.resetTstamp
    {
      c := vcpus[v];
      match c.state {
        case Ready => c := c.(ready := c.ready + (t - c.tstamp), tstamp := t);
        case Running => c := c.(running := c.running + (t - c.tstamp), tstamp := t);
        case Paused => c := c.(paused := c.paused + (t - c.tstamp), tstamp := t);
        case Halted => c := c.(halted := c.halted + (t - c.tstamp), tstamp := t);
        case _ =>
      }
      vcpus := vcpus[v := c];
      sinceReset := t - c.resetTstamp;
    }
  }
}
