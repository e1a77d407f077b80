/**
  What every run of the scheduler keeps: the ready queues hold exactly the ready VCPUs, a host CPU runs only
  its current VCPU, a halted VCPU stays halted, and a resume is never lost.
 */
module SchedulerSafety {
  import opened Options
  import opened SchedulerState

  /** How often `v` has to be in the ready queue of `h`. */
  function Due(s: Sched, h: CpuId, v: VcpuId): nat {
    if v in s.vcpus && s.vcpus[v].state == Ready && s.vcpus[v].hcpu == h then 1 else 0
  }

  ghost predicate QueueExact(s: Sched, h: CpuId, v: VcpuId)
    requires h in s.cpus
  {
    s.cpus[h].rq[v] == Due(s, h, v)
  }

  ghost predicate VcpuOk(s: Sched, v: VcpuId)
    requires v in s.vcpus
  {
    var c := s.vcpus[v];
    && c.hcpu in s.cpus && c.hcpu in c.affinity && c.affinity <= s.cpus.Keys
    && (c.state == Running ==> IsCurrent(s, v))
    && (c.state == Reset ==> c.ready == c.running == c.paused == c.halted == 0)
  }

  /** The current VCPU belongs to the host CPU. */
  ghost predicate CpuOk(s: Sched, h: CpuId)
    requires h in s.cpus
  {
    s.cpus[h].current.Some? ==> s.cpus[h].current.value in s.vcpus && s.vcpus[s.cpus[h].current.value].hcpu == h
  }

  ghost predicate IpiOk(s: Sched, i: Ipi) {
    i.vcpu in s.vcpus && i.from in s.cpus && i.to in s.vcpus[i.vcpu].affinity
  }

  /**
    A VCPU is in exactly one ready queue, that of its own host CPU, exactly once, if and only if it is ready;
    a running VCPU is the current one of its host CPU.
   */
  ghost predicate Inv(s: Sched) {
    && (forall h, v {:trigger QueueExact(s, h, v)} | h in s.cpus :: QueueExact(s, h, v))
    && (forall v {:trigger VcpuOk(s, v)} | v in s.vcpus :: VcpuOk(s, v))
    && (forall h {:trigger CpuOk(s, h)} | h in s.cpus :: CpuOk(s, h))
    && (forall i {:trigger IpiOk(s, i)} | i in s.ipis :: IpiOk(s, i))
  }

  // ------------------------------------------------------- when a step is safe

  /**
    A state change is unsafe if it takes a ready VCPU out of the ready state without taking it out of the queue:
    when it is destroyed, or when it is still the current VCPU of its host CPU.
   */
  predicate SafeChange(s: Sched, v: VcpuId, to: State)
    requires v in s.vcpus && s.vcpus[v].hcpu in s.cpus
  {
    var c := s.vcpus[v];
    c.state == Ready ==> to != Unknown && (IsCurrent(s, v) && (to == Reset || to == Paused || to == Halted) ==> to == Paused && c.resumed)
  }

  predicate SafeSetHcpu(s: Sched, v: VcpuId, h: CpuId)
    requires v in s.vcpus && s.vcpus[v].hcpu in s.cpus
  {
    var c := s.vcpus[v];
    IsCurrent(s, v) ==> c.state == Ready || c.state == Running || c.hcpu == h || h !in c.affinity
  }

  predicate SafeMigrate(s: Sched, i: Ipi)
    requires i.vcpu in s.vcpus && s.vcpus[i.vcpu].hcpu in s.cpus
  {
    Migrates(s, i) ==> !IsCurrent(s, i.vcpu)
  }

  /** A VCPU that is still current is not taken away from under its host CPU. */
  predicate Safe(s: Sched, e: Event) {
    match e
    case Change(v, to, _) => v in s.vcpus && s.vcpus[v].hcpu in s.cpus ==> SafeChange(s, v, to)
    case SetHcpu(v, h) => v in s.vcpus && s.vcpus[v].hcpu in s.cpus ==> SafeSetHcpu(s, v, h)
    case Migrate(i) => i.vcpu in s.vcpus && s.vcpus[i.vcpu].hcpu in s.cpus ==> SafeMigrate(s, i)
    case _ => true
  }

  lemma ChangedQueue(s: Sched, v: VcpuId, to: State, t: int, h: CpuId, w: VcpuId)
    requires v in s.vcpus && VcpuOk(s, v) && h in s.cpus && QueueExact(s, h, w)
    ensures QueueExact(Changed(s, v, to, t), h, w) <==> w == v && h == s.vcpus[v].hcpu ==> SafeChange(s, v, to)
  {
  }

  lemma ChangedVcpu(s: Sched, v: VcpuId, to: State, t: int, w: VcpuId)
    requires v in s.vcpus && VcpuOk(s, v) && w in s.vcpus && VcpuOk(s, w)
    ensures VcpuOk(Changed(s, v, to, t), w)
  {
    var s' := Changed(s, v, to, t);
    assert s'.cpus.Keys == s.cpus.Keys;
    assert w != v ==> s'.vcpus[w] == s.vcpus[w];
  }

  lemma ChangedFrame(s: Sched, v: VcpuId, to: State, t: int, h: CpuId, i: Ipi)
    requires v in s.vcpus && VcpuOk(s, v)
    ensures var s' := Changed(s, v, to, t);
            && s'.cpus.Keys == s.cpus.Keys && s'.vcpus.Keys == s.vcpus.Keys && s'.ipis == s.ipis
            && (h in s.cpus && CpuOk(s, h) ==> CpuOk(s', h))
            && (IpiOk(s, i) ==> IpiOk(s', i))
  {
    hide QueueAfter, ResumedAfter;
    var s' := Changed(s, v, to, t);
    EnterKeeps(s.vcpus[v], to, t);
    assert s'.vcpus[v].hcpu == s.vcpus[v].hcpu && s'.vcpus[v].affinity == s.vcpus[v].affinity;
    assert h in s.cpus ==> s'.cpus[h].current == s.cpus[h].current;
  }

  lemma EnterKeeps(c: Vcpu, to: State, t: int)
    ensures Enter(c, to, t).hcpu == c.hcpu && Enter(c, to, t).affinity == c.affinity
  {
  }

  /** A state change keeps the invariant exactly if it is safe. */
  lemma ChangeKeepsInv(s: Sched, v: VcpuId, to: State, t: int)
    requires Inv(s) && v in s.vcpus
    ensures VcpuOk(s, v) && (Inv(Changed(s, v, to, t)) <==> SafeChange(s, v, to))
  {
    hide QueueExact, Changed, SafeChange, CpuOk, IpiOk;
    assert VcpuOk(s, v);
    var s' := Changed(s, v, to, t);
    ChangedFrame(s, v, to, t, 0, Ipi(0, 0, 0));
    forall h | h in s'.cpus ensures CpuOk(s', h) {
      assert CpuOk(s, h);
      ChangedFrame(s, v, to, t, h, Ipi(0, 0, 0));
    }
    forall i | i in s'.ipis ensures IpiOk(s', i) {
      assert IpiOk(s, i);
      ChangedFrame(s, v, to, t, 0, i);
    }
    forall w | w in s'.vcpus ensures VcpuOk(s', w) {
      ChangedVcpu(s, v, to, t, w);
    }
    forall h, w | h in s.cpus
      ensures QueueExact(s', h, w) <==> w == v && h == s.vcpus[v].hcpu ==> SafeChange(s, v, to)
    {
      ChangedQueue(s, v, to, t, h, w);
    }
    assert Inv(s') ==> QueueExact(s', s.vcpus[v].hcpu, v);
  }

  lemma SetHcpuParts(s: Sched, v: VcpuId, h: CpuId, g: CpuId, w: VcpuId)
    requires v in s.vcpus && VcpuOk(s, v) && SafeSetHcpu(s, v, h)
    ensures var s' := HcpuSet(s, v, h);
            && s'.cpus == s.cpus && s'.vcpus.Keys == s.vcpus.Keys
            && (w in s.vcpus && VcpuOk(s, w) ==> VcpuOk(s', w))
            && (g in s.cpus && QueueExact(s, g, w) ==> QueueExact(s', g, w))
            && (g in s.cpus && CpuOk(s, g) ==> CpuOk(s', g))
  {
  }

  lemma SetHcpuIpis(s: Sched, v: VcpuId, h: CpuId, i: Ipi)
    requires v in s.vcpus && VcpuOk(s, v) && i in HcpuSet(s, v, h).ipis && (i in s.ipis ==> IpiOk(s, i))
    ensures IpiOk(HcpuSet(s, v, h), i)
  {
  }

  lemma SetHcpuUnsafe(s: Sched, v: VcpuId, h: CpuId)
    requires v in s.vcpus && VcpuOk(s, v) && !SafeSetHcpu(s, v, h)
    ensures s.vcpus[v].hcpu in HcpuSet(s, v, h).cpus && !CpuOk(HcpuSet(s, v, h), s.vcpus[v].hcpu)
  {
  }

  /** Moving a VCPU that is still current elsewhere breaks the invariant; otherwise setting the host CPU keeps it. */
  lemma SetHcpuKeepsInv(s: Sched, v: VcpuId, h: CpuId)
    requires Inv(s) && v in s.vcpus
    ensures VcpuOk(s, v) && (Inv(HcpuSet(s, v, h)) <==> SafeSetHcpu(s, v, h))
  {
    hide QueueExact, HcpuSet, SafeSetHcpu, CpuOk, IpiOk;
    assert VcpuOk(s, v);
    var s' := HcpuSet(s, v, h);
    if SafeSetHcpu(s, v, h) {
      SetHcpuParts(s, v, h, 0, 0);
      forall w | w in s'.vcpus ensures VcpuOk(s', w) {
        assert VcpuOk(s, w);
        SetHcpuParts(s, v, h, 0, w);
      }
      forall g, w | g in s'.cpus ensures QueueExact(s', g, w) && CpuOk(s', g) {
        assert QueueExact(s, g, w) && CpuOk(s, g);
        SetHcpuParts(s, v, h, g, w);
      }
      assert forall g | g in s'.cpus :: QueueExact(s', g, 0);
      forall i | i in s'.ipis ensures IpiOk(s', i) {
        assert i in s.ipis ==> IpiOk(s, i);
        SetHcpuIpis(s, v, h, i);
      }
    } else {
      SetHcpuUnsafe(s, v, h);
    }
  }

  lemma MigratedParts(s: Sched, i: Ipi, g: CpuId, w: VcpuId)
    requires IpiOk(s, i) && VcpuOk(s, i.vcpu) && SafeMigrate(s, i)
    ensures var s' := Migrated(s, i);
            && s'.cpus.Keys == s.cpus.Keys && s'.vcpus.Keys == s.vcpus.Keys && s'.ipis <= s.ipis
            && (w in s.vcpus && VcpuOk(s, w) ==> VcpuOk(s', w))
            && (g in s.cpus && CpuOk(s, g) ==> CpuOk(s', g))
  {
    var s' := Migrated(s, i);
    assert s'.cpus.Keys == s.cpus.Keys;
  }

  lemma MigratedIpis(s: Sched, i: Ipi, j: Ipi)
    requires IpiOk(s, i) && VcpuOk(s, i.vcpu) && IpiOk(s, j)
    ensures IpiOk(Migrated(s, i), j)
  {
  }

  lemma MigratedQueue(s: Sched, i: Ipi, g: CpuId, w: VcpuId)
    requires IpiOk(s, i) && VcpuOk(s, i.vcpu) && g in s.cpus && QueueExact(s, g, w)
    ensures QueueExact(Migrated(s, i), g, w)
  {
  }

  lemma MigrateUnsafe(s: Sched, i: Ipi)
    requires IpiOk(s, i) && VcpuOk(s, i.vcpu) && !SafeMigrate(s, i)
    ensures i.from in Migrated(s, i).cpus && !CpuOk(Migrated(s, i), i.from)
  {
  }

  /** Handing over a VCPU that is still current breaks the invariant; otherwise a migration keeps it. */
  lemma MigrateKeepsInv(s: Sched, i: Ipi)
    requires Inv(s) && i in s.ipis
    ensures IpiOk(s, i) && VcpuOk(s, i.vcpu) && (Inv(Migrated(s, i)) <==> SafeMigrate(s, i))
  {
    hide QueueExact, Migrated, SafeMigrate, CpuOk;
    assert IpiOk(s, i) && VcpuOk(s, i.vcpu);
    var s' := Migrated(s, i);
    if SafeMigrate(s, i) {
      MigratedParts(s, i, 0, 0);
      forall w | w in s'.vcpus ensures VcpuOk(s', w) {
        assert VcpuOk(s, w);
        MigratedParts(s, i, 0, w);
      }
      forall g | g in s'.cpus ensures CpuOk(s', g) {
        assert CpuOk(s, g);
        MigratedParts(s, i, g, 0);
      }
      forall g, w | g in s'.cpus ensures QueueExact(s', g, w) {
        assert QueueExact(s, g, w);
        MigratedQueue(s, i, g, w);
      }
      forall j | j in s'.ipis ensures IpiOk(s', j) {
        assert IpiOk(s, j);
        MigratedIpis(s, i, j);
      }
    } else {
      MigrateUnsafe(s, i);
    }
  }

  // --------------------------------------------------------- context switches

  lemma PutBackParts(s: Sched, h: CpuId, t: int, g: CpuId, w: VcpuId)
    requires h in s.cpus && CpuOk(s, h)
    ensures var s' := PutBack(s, h, t);
            && s'.cpus.Keys == s.cpus.Keys && s'.vcpus.Keys == s.vcpus.Keys && s'.ipis == s.ipis
            && (w in s.vcpus && VcpuOk(s, w) ==> VcpuOk(s', w) && (s.vcpus[w].hcpu == h ==> s'.vcpus[w].state != Running))
            && (g in s.cpus && CpuOk(s, g) ==> CpuOk(s', g))
            && s'.cpus[h].current == s.cpus[h].current
  {
    var s' := PutBack(s, h, t);
    assert s'.cpus.Keys == s.cpus.Keys;
  }

  lemma PutBackQueue(s: Sched, h: CpuId, t: int, g: CpuId, w: VcpuId)
    requires h in s.cpus && CpuOk(s, h) && g in s.cpus && QueueExact(s, g, w)
    ensures g in PutBack(s, h, t).cpus && QueueExact(PutBack(s, h, t), g, w)
  {
  }

  lemma PutBackIpis(s: Sched, h: CpuId, t: int, i: Ipi)
    requires h in s.cpus && CpuOk(s, h) && IpiOk(s, i)
    ensures IpiOk(PutBack(s, h, t), i)
  {
  }

  ghost predicate NoneRunning(s: Sched, h: CpuId) {
    forall v | v in s.vcpus && s.vcpus[v].hcpu == h :: s.vcpus[v].state != Running
  }

  lemma PutBackKeepsInv(s: Sched, h: CpuId, t: int)
    requires Inv(s) && h in s.cpus
    ensures CpuOk(s, h) && Inv(PutBack(s, h, t)) && NoneRunning(PutBack(s, h, t), h)
  {
    hide QueueExact, PutBack, IpiOk;
    assert CpuOk(s, h);
    var s' := PutBack(s, h, t);
    PutBackParts(s, h, t, 0, 0);
    forall w | w in s'.vcpus ensures VcpuOk(s', w) && (s'.vcpus[w].hcpu == h ==> s'.vcpus[w].state != Running) {
      assert VcpuOk(s, w);
      PutBackParts(s, h, t, 0, w);
      PutBackHcpu(s, h, t, w);
    }
    forall g | g in s'.cpus ensures CpuOk(s', g) {
      assert CpuOk(s, g);
      PutBackParts(s, h, t, g, 0);
    }
    forall g, w | g in s'.cpus ensures QueueExact(s', g, w) {
      assert QueueExact(s, g, w);
      PutBackQueue(s, h, t, g, w);
    }
    forall i | i in s'.ipis ensures IpiOk(s', i) {
      assert IpiOk(s, i);
      PutBackIpis(s, h, t, i);
    }
  }

  lemma PutBackHcpu(s: Sched, h: CpuId, t: int, w: VcpuId)
    requires h in s.cpus && CpuOk(s, h) && w in s.vcpus
    ensures w in PutBack(s, h, t).vcpus && PutBack(s, h, t).vcpus[w].hcpu == s.vcpus[w].hcpu
  {
  }

  /** With exact queues the first one taken is ready and at home, so none is passed over. */
  lemma OnePick(s: Sched, h: CpuId, passed: multiset<VcpuId>, next: VcpuId)
    requires Inv(s) && h in s.cpus && Picked(s, h, passed, next)
    ensures passed == multiset{} && s.vcpus[next].state == Ready && s.vcpus[next].hcpu == h
  {
    assert QueueExact(s, h, next) && next in passed + multiset{next};
    forall v ensures v !in passed {
      assert QueueExact(s, h, v) && (v in passed ==> v in passed + multiset{next});
    }
    assert passed == multiset{};
  }

  lemma TakenParts(s: Sched, h: CpuId, v: VcpuId, t: int, g: CpuId, w: VcpuId)
    requires h in s.cpus && CpuOk(s, h) && v in s.vcpus && s.vcpus[v].state == Ready && s.vcpus[v].hcpu == h && NoneRunning(s, h)
    requires VcpuOk(s, v)
    ensures var s' := Taken(s, h, multiset{}, v, t);
            && s'.cpus.Keys == s.cpus.Keys && s'.vcpus.Keys == s.vcpus.Keys && s'.ipis == s.ipis
            && (w in s.vcpus && VcpuOk(s, w) ==> VcpuOk(s', w))
            && (g in s.cpus && CpuOk(s, g) ==> CpuOk(s', g))
  {
    var s' := Taken(s, h, multiset{}, v, t);
    assert s'.cpus.Keys == s.cpus.Keys;
  }

  lemma TakenQueue(s: Sched, h: CpuId, v: VcpuId, t: int, g: CpuId, w: VcpuId)
    requires h in s.cpus && v in s.vcpus && s.vcpus[v].state == Ready && s.vcpus[v].hcpu == h
    requires g in s.cpus && QueueExact(s, g, w)
    ensures g in Taken(s, h, multiset{}, v, t).cpus && QueueExact(Taken(s, h, multiset{}, v, t), g, w)
  {
  }

  lemma TakenIpis(s: Sched, h: CpuId, v: VcpuId, t: int, i: Ipi)
    requires h in s.cpus && v in s.vcpus && IpiOk(s, i)
    ensures IpiOk(Taken(s, h, multiset{}, v, t), i)
  {
  }

  lemma TakenKeepsInv(s: Sched, h: CpuId, passed: multiset<VcpuId>, next: VcpuId, t: int)
    requires Inv(s) && h in s.cpus && Picked(s, h, passed, next) && NoneRunning(s, h)
    ensures Inv(Taken(s, h, passed, next, t))
  {
    OnePick(s, h, passed, next);
    TakeOneKeepsInv(s, h, next, t);
  }

  lemma TakeOneKeepsInv(s: Sched, h: CpuId, v: VcpuId, t: int)
    requires Inv(s) && h in s.cpus && v in s.vcpus && s.vcpus[v].state == Ready && s.vcpus[v].hcpu == h && NoneRunning(s, h)
    ensures Inv(Taken(s, h, multiset{}, v, t))
  {
    hide QueueExact, Taken, CpuOk, IpiOk, NoneRunning;
    assert CpuOk(s, h) && VcpuOk(s, v);
    var s' := Taken(s, h, multiset{}, v, t);
    TakenParts(s, h, v, t, 0, 0);
    forall w | w in s'.vcpus ensures VcpuOk(s', w) {
      assert VcpuOk(s, w);
      TakenParts(s, h, v, t, 0, w);
    }
    forall g | g in s'.cpus ensures CpuOk(s', g) {
      assert CpuOk(s, g);
      TakenParts(s, h, v, t, g, 0);
    }
    forall g, w | g in s'.cpus ensures QueueExact(s', g, w) {
      assert QueueExact(s, g, w);
      TakenQueue(s, h, v, t, g, w);
    }
    forall i | i in s'.ipis ensures IpiOk(s', i) {
      assert IpiOk(s, i);
      TakenIpis(s, h, v, t, i);
    }
  }

  lemma BookKeepingParts(s: Sched, e: Event, s': Sched, g: CpuId, w: VcpuId, i: Ipi)
    requires (e.Stats? || e.Irq?) && Step(s, e, s')
    ensures s'.cpus.Keys == s.cpus.Keys && s'.vcpus.Keys == s.vcpus.Keys && s'.ipis == s.ipis
    ensures w in s.vcpus && VcpuOk(s, w) ==> VcpuOk(s', w)
    ensures g in s.cpus && CpuOk(s, g) ==> CpuOk(s', g)
    ensures g in s.cpus && QueueExact(s, g, w) ==> QueueExact(s', g, w)
    ensures IpiOk(s, i) ==> IpiOk(s', i)
  {
  }

  lemma BookKeepingKeepsInv(s: Sched, e: Event, s': Sched)
    requires Inv(s) && (e.Stats? || e.Irq?) && Step(s, e, s')
    ensures Inv(s')
  {
    hide QueueExact, Step, CpuOk, IpiOk, VcpuOk;
    BookKeepingParts(s, e, s', 0, 0, Ipi(0, 0, 0));
    forall w | w in s'.vcpus ensures VcpuOk(s', w) {
      assert VcpuOk(s, w);
      BookKeepingParts(s, e, s', 0, w, Ipi(0, 0, 0));
    }
    forall g | g in s'.cpus ensures CpuOk(s', g) {
      assert CpuOk(s, g);
      BookKeepingParts(s, e, s', g, 0, Ipi(0, 0, 0));
    }
    forall g, w | g in s'.cpus ensures QueueExact(s', g, w) {
      assert QueueExact(s, g, w);
      BookKeepingParts(s, e, s', g, w, Ipi(0, 0, 0));
    }
    forall i | i in s'.ipis ensures IpiOk(s', i) {
      assert IpiOk(s, i);
      BookKeepingParts(s, e, s', 0, 0, i);
    }
  }

  /** From a state that satisfies the invariant, a step leads to one exactly if it is safe. */
  lemma StepKeepsInv(s: Sched, e: Event, s': Sched)
    requires Inv(s) && Step(s, e, s')
    ensures Inv(s') <==> Safe(s, e)
  {
    hide Inv;
    match e
    case Change(v, to, t) => ChangeKeepsInv(s, v, to, t);
    case Switch(h, t, passed, next) =>
      PutBackKeepsInv(s, h, t);
      TakenKeepsInv(PutBack(s, h, t), h, passed, next, t);
    case SetHcpu(v, h) => SetHcpuKeepsInv(s, v, h);
    case Migrate(i) => MigrateKeepsInv(s, i);
    case _ => BookKeepingKeepsInv(s, e, s');
  }
}
