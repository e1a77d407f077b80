/** Properties of whole runs of the scheduler. */
module SchedulerRuns {
  import opened Options
  import opened SchedulerState
  import opened SchedulerSafety

  ghost predicate Run(states: seq<Sched>, events: seq<Event>) {
    && |states| == |events| + 1
    && forall i | 0 <= i < |events| :: Step(states[i], events[i], states[i + 1])
  }

  ghost predicate SafeRun(states: seq<Sched>, events: seq<Event>) {
    && Run(states, events) && Inv(states[0])
    && forall i | 0 <= i < |events| :: Safe(states[i], events[i])
  }

  lemma {:induction false} RunKeepsInv(states: seq<Sched>, events: seq<Event>, k: nat)
    requires SafeRun(states, events) && k < |states|
    ensures Inv(states[k])
  {
    hide Inv, Safe, Step;
    if k > 0 {
      RunKeepsInv(states, events, k - 1);
      StepKeepsInv(states[k - 1], events[k - 1], states[k]);
    }
  }

  /** At any time, ready means queued once at home and nowhere else, and no two VCPUs run on one host CPU. */
  lemma QueuedOnceRunningAlone(states: seq<Sched>, events: seq<Event>, k: nat, v: VcpuId, w: VcpuId)
    requires SafeRun(states, events) && k < |states|
    requires v in states[k].vcpus && w in states[k].vcpus
    ensures var s := states[k]; var c := s.vcpus[v];
            && c.hcpu in s.cpus && s.cpus[c.hcpu].rq[v] == (if c.state == Ready then 1 else 0)
            && (forall h | h in s.cpus && h != c.hcpu :: v !in s.cpus[h].rq)
            && (c.state == Running ==> s.cpus[c.hcpu].current == Some(v))
            && (c.state == Running && s.vcpus[w].state == Running && c.hcpu == s.vcpus[w].hcpu ==> v == w)
  {
    RunKeepsInv(states, events, k);
    var s := states[k];
    assert VcpuOk(s, v) && VcpuOk(s, w) && QueueExact(s, s.vcpus[v].hcpu, v);
    forall h | h in s.cpus && h != s.vcpus[v].hcpu ensures v !in s.cpus[h].rq {
      assert QueueExact(s, h, v);
    }
  }

  // ------------------------------------------------------------------ halting

  predicate Revives(e: Event, v: VcpuId) {
    e.Change? && e.v == v && (e.to == Reset || e.to == Unknown)
  }

  /** A switch starts a VCPU that was ready, or the current one after it was put back. */
  lemma SwitchStarts(s: Sched, h: CpuId, t: int, passed: multiset<VcpuId>, next: VcpuId, s': Sched, v: VcpuId)
    requires Inv(s) && Step(s, Switch(h, t, passed, next), s') && v in s.vcpus
    ensures passed == multiset{} && next in s.vcpus && s.vcpus[next].hcpu == h
    ensures s.vcpus[next].state == Ready || (s.vcpus[next].state == Running && s.cpus[h].current == Some(next))
    ensures v != next && s.cpus[h].current != Some(v) ==> v in s'.vcpus && s'.vcpus[v] == s.vcpus[v]
    ensures v != next && s.vcpus[v].state != Running ==> v in s'.vcpus && s'.vcpus[v] == s.vcpus[v]
  {
    hide Inv;
    PutBackKeepsInv(s, h, t);
    OnePick(PutBack(s, h, t), h, passed, next);
    PutBackParts(s, h, t, h, v);
  }

  lemma HaltedStep(s: Sched, e: Event, s': Sched, v: VcpuId)
    requires Inv(s) && Step(s, e, s') && v in s.vcpus && s.vcpus[v].state == Halted && !Revives(e, v)
    ensures v in s'.vcpus && s'.vcpus[v].state == Halted
  {
    hide Inv;
    if e.Switch? {
      SwitchStarts(s, e.h, e.t, e.passed, e.next, s', v);
    }
  }

  /** A halted VCPU stays halted until it is reset or destroyed: it never runs. */
  lemma {:induction false} HaltedNeverRuns(states: seq<Sched>, events: seq<Event>, i: nat, k: nat, v: VcpuId)
    requires SafeRun(states, events) && i <= k < |states|
    requires v in states[i].vcpus && states[i].vcpus[v].state == Halted
    requires forall j | i <= j < k :: !Revives(events[j], v)
    ensures v in states[k].vcpus && states[k].vcpus[v].state == Halted
  {
    hide Inv, Safe, Step, Revives;
    if i < k {
      HaltedNeverRuns(states, events, i, k - 1, v);
      RunKeepsInv(states, events, k - 1);
      HaltedStep(states[k - 1], events[k - 1], states[k], v);
    }
  }

  // ----------------------------------------------------------------- resuming

  /** No context switch on `h`, and no request that would stop `v`. */
  predicate LeavesAlone(e: Event, v: VcpuId, h: CpuId) {
    match e
    case Change(w, to, _) => w == v ==> to == Ready || to == Running
    case Switch(g, _, _, _) => g != h
    case _ => true
  }

  ghost predicate ResumedAt(s: Sched, v: VcpuId, h: CpuId) {
    v in s.vcpus && s.vcpus[v].state == Running && s.vcpus[v].resumed && s.vcpus[v].hcpu == h
  }

  lemma ResumedStep(s: Sched, e: Event, s': Sched, v: VcpuId, h: CpuId)
    requires Inv(s) && Step(s, e, s') && ResumedAt(s, v, h) && LeavesAlone(e, v, h)
    ensures ResumedAt(s', v, h)
  {
    hide Inv;
    if e.Switch? {
      SwitchStarts(s, e.h, e.t, e.passed, e.next, s', v);
      assert s.cpus[e.h].current != Some(v) by { CurrentIsHome(s, e.h); }
    }
  }

  lemma CurrentIsHome(s: Sched, h: CpuId)
    requires Inv(s) && h in s.cpus
    ensures s.cpus[h].current.Some? ==> s.cpus[h].current.value in s.vcpus && s.vcpus[s.cpus[h].current.value].hcpu == h
  {
    assert CpuOk(s, h);
  }

  lemma {:induction false} ResumedUntil(states: seq<Sched>, events: seq<Event>, i: nat, k: nat, v: VcpuId, h: CpuId)
    requires SafeRun(states, events) && i <= k < |states| && ResumedAt(states[i], v, h)
    requires forall j | i <= j < k :: LeavesAlone(events[j], v, h)
    ensures ResumedAt(states[k], v, h)
  {
    hide Inv, Safe, Step, ResumedAt, LeavesAlone;
    if i < k {
      ResumedUntil(states, events, i, k - 1, v, h);
      RunKeepsInv(states, events, k - 1);
      ResumedStep(states[k - 1], events[k - 1], states[k], v, h);
    }
  }

  /**
    A resume that reaches a running VCPU cancels the next pause, if its host CPU does not switch in between:
    the VCPU goes on running, and the pause after that takes effect.
   */
  lemma ResumeCancelsNextPause(states: seq<Sched>, events: seq<Event>, i: nat, k: nat, v: VcpuId, h: CpuId, t: int, u: int)
    requires SafeRun(states, events) && i < k < |events|
    requires events[i] == Change(v, Ready, t) && v in states[i].vcpus
    requires states[i].vcpus[v].state == Running && states[i].vcpus[v].hcpu == h
    requires forall j | i < j < k :: LeavesAlone(events[j], v, h)
    requires events[k] == Change(v, Paused, u)
    ensures v in states[k + 1].vcpus && states[k + 1].vcpus[v].state == Running && !states[k + 1].vcpus[v].resumed
    ensures Judge(Running, states[k + 1].vcpus[v].resumed, Paused) == Go
  {
    hide Inv, Safe, LeavesAlone, Step;
    assert Step(states[i], events[i], states[i + 1]);
    ResumeSeen(states[i], states[i + 1], v, h, t);
    ResumedUntil(states, events, i + 1, k, v, h);
    assert Step(states[k], events[k], states[k + 1]);
    PauseSwallowed(states[k], states[k + 1], v, h, u);
  }

  lemma ResumeSeen(s: Sched, s': Sched, v: VcpuId, h: CpuId, t: int)
    requires Step(s, Change(v, Ready, t), s') && v in s.vcpus && s.vcpus[v].state == Running && s.vcpus[v].hcpu == h
    ensures ResumedAt(s', v, h)
  {
  }

  lemma PauseSwallowed(s: Sched, s': Sched, v: VcpuId, h: CpuId, t: int)
    requires Step(s, Change(v, Paused, t), s') && ResumedAt(s, v, h)
    ensures v in s'.vcpus && s'.vcpus[v].state == Running && !s'.vcpus[v].resumed
  {
  }

  /** The VCPU that a switch starts runs, and is current; a resume that was seen before has no effect any more. */
  lemma SwitchClearsResume(s: Sched, h: CpuId, t: int, passed: multiset<VcpuId>, next: VcpuId, s': Sched)
    requires Step(s, Switch(h, t, passed, next), s')
    ensures next in s'.vcpus && s'.vcpus[next].state == Running && !s'.vcpus[next].resumed
    ensures h in s'.cpus && s'.cpus[h].current == Some(next)
  {
  }

  predicate Starts(e: Event, v: VcpuId) {
    e.Switch? && e.next == v
  }

  predicate Asks(e: Event, v: VcpuId) {
    e.Change? && e.v == v
  }

  predicate Runnable(s: Sched, v: VcpuId) {
    v in s.vcpus && (s.vcpus[v].state == Ready || s.vcpus[v].state == Running)
  }

  lemma RunnableStep(s: Sched, e: Event, s': Sched, v: VcpuId)
    requires Step(s, e, s') && Runnable(s, v) && !Asks(e, v)
    ensures Runnable(s', v) && (s'.vcpus[v].resumed <==> s.vcpus[v].resumed && !Starts(e, v))
  {
    hide Judge, ResumedAfter, QueueAfter, Enter;
  }

  /** Unless somebody asks for another state, a VCPU stays runnable, and keeps a resume until a switch starts it. */
  lemma {:induction false} ResumeKept(states: seq<Sched>, events: seq<Event>, i: nat, k: nat, v: VcpuId)
    requires Run(states, events) && i <= k < |states| && Runnable(states[i], v)
    requires forall j | i <= j < k :: !Asks(events[j], v)
    ensures Runnable(states[k], v)
    ensures states[k].vcpus[v].resumed <==> states[i].vcpus[v].resumed && forall j | i <= j < k :: !Starts(events[j], v)
  {
    hide Step, Runnable, Asks, Starts;
    if i < k {
      ResumeKept(states, events, i, k - 1, v);
      assert Step(states[k - 1], events[k - 1], states[k]);
      RunnableStep(states[k - 1], events[k - 1], states[k], v);
    }
  }

  /** A resume that reaches a running VCPU cancels the next pause exactly if no switch starts the VCPU in between. */
  lemma PauseCancelledExactly(states: seq<Sched>, events: seq<Event>, i: nat, k: nat, v: VcpuId, t: int, u: int)
    requires Run(states, events) && i < k < |events|
    requires events[i] == Change(v, Ready, t) && v in states[i].vcpus && states[i].vcpus[v].state == Running
    requires (forall j | i < j < k :: !Asks(events[j], v)) && events[k] == Change(v, Paused, u)
    ensures v in states[k].vcpus && v in states[k + 1].vcpus
    ensures states[k + 1].vcpus[v].state == if exists j :: i < j < k && Starts(events[j], v) then Paused else states[k].vcpus[v].state
    ensures Runnable(states[k], v)
  {
    hide Step, Asks, Starts;
    assert Step(states[i], events[i], states[i + 1]);
    ResumeSeen(states[i], states[i + 1], v, states[i].vcpus[v].hcpu, t);
    ResumeKept(states, events, i + 1, k, v);
    assert Step(states[k], events[k], states[k + 1]);
    PauseObeyed(states[k], states[k + 1], v, u);
  }

  lemma PauseObeyed(s: Sched, s': Sched, v: VcpuId, t: int)
    requires Step(s, Change(v, Paused, t), s') && v in s.vcpus
    ensures v in s'.vcpus
    ensures Runnable(s, v) ==> s'.vcpus[v].state == if s.vcpus[v].resumed then s.vcpus[v].state else Paused
    ensures s.vcpus[v].state == Paused ==> s'.vcpus[v].state == Paused
  {
  }

  lemma NotResumedStep(s: Sched, e: Event, s': Sched, v: VcpuId)
    requires Step(s, e, s') && v in s.vcpus && !s.vcpus[v].resumed && !(Asks(e, v) && e.to == Ready)
    ensures v in s'.vcpus && !s'.vcpus[v].resumed
  {
  }

  lemma {:induction false} NotResumedSince(states: seq<Sched>, events: seq<Event>, i: nat, k: nat, v: VcpuId)
    requires Run(states, events) && i < k < |states| && Starts(events[i], v)
    requires forall j | i < j < k :: !(Asks(events[j], v) && events[j].to == Ready)
    ensures v in states[k].vcpus && !states[k].vcpus[v].resumed
  {
    hide Step, Asks;
    assert Step(states[k - 1], events[k - 1], states[k]);
    if k == i + 1 {
      var e := events[i];
      SwitchClearsResume(states[i], e.h, e.t, e.passed, e.next, states[k]);
    } else {
      NotResumedSince(states, events, i, k - 1, v);
      NotResumedStep(states[k - 1], events[k - 1], states[k], v);
    }
  }

  /** A pause that comes after a switch started the VCPU, with no resume in between, takes effect. */
  lemma PauseTakesEffect(states: seq<Sched>, events: seq<Event>, i: nat, k: nat, v: VcpuId, t: int)
    requires Run(states, events) && i < k < |events| && Starts(events[i], v) && events[k] == Change(v, Paused, t)
    requires forall j | i < j < k :: !(Asks(events[j], v) && events[j].to == Ready)
    ensures v in states[k].vcpus && v in states[k + 1].vcpus
    ensures Runnable(states[k], v) ==> states[k + 1].vcpus[v].state == Paused
  {
    hide Step, Asks, Starts;
    NotResumedSince(states, events, i, k, v);
    assert Step(states[k], events[k], states[k + 1]);
    PauseObeyed(states[k], states[k + 1], v, t);
  }

  // ----------------------------------------------------------- state requests

  /** The requests that are obeyed; a pause is not if a resume is pending. */
  const OBEYED: set<(State, State)> := {
    (Unknown, Reset), (Ready, Reset), (Running, Reset), (Paused, Reset), (Halted, Reset),
    (Reset, Ready), (Paused, Ready),
    (Ready, Paused), (Running, Paused), (Ready, Halted), (Running, Halted),
    (Unknown, Unknown), (Reset, Unknown), (Ready, Unknown), (Running, Unknown), (Paused, Unknown), (Halted, Unknown)
  }

  /** The requests that change nothing and are no error: the VCPU is in that state, or the scheduler will bring it there. */
  const HARMLESS: set<(State, State)> := {(Reset, Reset), (Running, Ready), (Ready, Ready), (Paused, Paused)}

  predicate Obeyed(from: State, to: State) {
    (from, to) in OBEYED
  }

  /** Which requests are obeyed, and which are an error. */
  lemma JudgedBy(from: State, resumed: bool, to: State)
    ensures Judge(from, resumed, to) == Go <==> Obeyed(from, to) && !(to == Paused && resumed)
    ensures Judge(from, resumed, to) == Refuse <==> !Obeyed(from, to) && (from, to) !in HARMLESS
    ensures Obeyed(from, Reset) <==> from != Reset
  {
    match from
    case Unknown =>
    case Reset =>
    case Ready =>
    case Running =>
    case Paused =>
    case Halted =>
  }

  /** What a request does to the state, to the pending resume and to the number of resets. */
  lemma RequestsAre(s: Sched, v: VcpuId, to: State, t: int)
    requires v in s.vcpus && s.vcpus[v].hcpu in s.cpus
    ensures var c, d := s.vcpus[v], Changed(s, v, to, t).vcpus[v];
            && d.state == (if Obeyed(c.state, to) && !(to == Paused && c.resumed) then to else c.state)
            && (d.resumed <==> if to == Ready && c.state == Running then true
                               else if to == Paused || to == Halted then c.resumed && c.state != Ready && c.state != Running
                               else if to == Reset then c.resumed && (c.state == Unknown || c.state == Reset)
                               else c.resumed)
            && d.hcpu == c.hcpu && d.affinity == c.affinity
            && d.resets == c.resets + if to == Reset && c.state != Unknown && c.state != Reset then 1 else 0
    ensures forall w | w in s.vcpus && w != v :: Changed(s, v, to, t).vcpus[w] == s.vcpus[w]
  {
    hide Judge, QueueAfter, Obeyed;
    JudgedBy(s.vcpus[v].state, s.vcpus[v].resumed, to);
  }

  // ---------------------------------------------------------------- migration

  /** A request to move stays until it is served. */
  lemma RequestWaits(s: Sched, e: Event, s': Sched, i: Ipi)
    requires Step(s, e, s') && i in s.ipis && e != Migrate(i)
    ensures i in s'.ipis
  {
  }

  lemma {:induction false} RequestWaitsLong(states: seq<Sched>, events: seq<Event>, i: nat, k: nat, r: Ipi)
    requires Run(states, events) && i <= k < |states| && r in states[i].ipis && forall j | i <= j < k :: events[j] != Migrate(r)
    ensures r in states[k].ipis
  {
    hide Step;
    if i < k {
      RequestWaitsLong(states, events, i, k - 1, r);
      assert Step(states[k - 1], events[k - 1], states[k]);
      RequestWaits(states[k - 1], events[k - 1], states[k], r);
    }
  }

  /** Serving a request moves a VCPU that is ready where the request expects it, from queue to queue, and no other. */
  lemma ServedMoves(s: Sched, i: Ipi, s': Sched)
    requires Step(s, Migrate(i), s') && i.from != i.to
    ensures i.vcpu in s'.vcpus && i.from in s'.cpus && i.to in s'.cpus
    ensures if s.vcpus[i.vcpu].state == Ready && s.vcpus[i.vcpu].hcpu == i.from then
              && s'.vcpus == s.vcpus[i.vcpu := s.vcpus[i.vcpu].(hcpu := i.to)]
              && s'.cpus[i.from].rq == s.cpus[i.from].rq - multiset{i.vcpu} && s'.cpus[i.to].rq == s.cpus[i.to].rq + multiset{i.vcpu}
              && i.vcpu in s'.cpus[i.to].rq
            else s'.vcpus == s.vcpus && s'.cpus == s.cpus
    ensures s'.ipis == s.ipis - multiset{i}
  {
  }

  /** Setting the host CPU: at once for a VCPU that cannot run, by a request to its host CPU for one that can. */
  lemma SetOrAsked(s: Sched, v: VcpuId, h: CpuId, s': Sched)
    requires Step(s, SetHcpu(v, h), s') && h in s.vcpus[v].affinity && s.vcpus[v].hcpu != h
    ensures v in s'.vcpus
    ensures if Runnable(s, v) then s'.vcpus == s.vcpus && Ipi(v, s.vcpus[v].hcpu, h) in s'.ipis
            else s'.vcpus == s.vcpus[v := s.vcpus[v].(hcpu := h)] && s'.ipis == s.ipis
    ensures s'.cpus == s.cpus
  {
  }

  /**
    A runnable VCPU whose host CPU is set gets there: the request waits until it is served, and if the VCPU is ready
    on its old host CPU then, it ends up in the queue of the new one.
   */
  lemma ReachesNewHost(states: seq<Sched>, events: seq<Event>, i: nat, k: nat, v: VcpuId, g: CpuId, h: CpuId)
    requires Run(states, events) && i < k < |states| && events[i] == SetHcpu(v, h) && g != h
    requires Runnable(states[i], v) && states[i].vcpus[v].hcpu == g && h in states[i].vcpus[v].affinity
    requires forall j | i < j < k :: events[j] != Migrate(Ipi(v, g, h))
    ensures Ipi(v, g, h) in states[k].ipis
    ensures k < |events| && events[k] == Migrate(Ipi(v, g, h)) && v in states[k].vcpus
            && states[k].vcpus[v].state == Ready && states[k].vcpus[v].hcpu == g ==>
              && v in states[k + 1].vcpus && states[k + 1].vcpus[v].hcpu == h && states[k + 1].vcpus[v].state == Ready
              && h in states[k + 1].cpus && v in states[k + 1].cpus[h].rq
  {
    hide Step, Runnable;
    assert Step(states[i], events[i], states[i + 1]);
    SetOrAsked(states[i], v, h, states[i + 1]);
    RequestWaitsLong(states, events, i + 1, k, Ipi(v, g, h));
    if k < |events| && events[k] == Migrate(Ipi(v, g, h)) {
      assert Step(states[k], events[k], states[k + 1]);
      ServedMoves(states[k], Ipi(v, g, h), states[k + 1]);
    }
  }

  // ------------------------------------------------------------ idle VCPUs

  /** Every host CPU has a VCPU of its own that is bound to it and always ready or running. */
  ghost predicate IdleOk(s: Sched, idle: map<CpuId, VcpuId>) {
    forall h {:trigger IdleAt(s, idle, h)} | h in s.cpus :: IdleAt(s, idle, h)
  }

  ghost predicate IdleAt(s: Sched, idle: map<CpuId, VcpuId>, h: CpuId) {
    && h in idle && idle[h] in s.vcpus
    && s.vcpus[idle[h]].hcpu == h && s.vcpus[idle[h]].affinity == {h}
    && (s.vcpus[idle[h]].state == Ready || s.vcpus[idle[h]].state == Running)
  }

  /** The idle VCPUs only ever yield. */
  ghost predicate Spares(e: Event, idle: map<CpuId, VcpuId>) {
    forall h | h in idle :: e.Change? && e.v == idle[h] ==> e.to == Ready || e.to == Running
  }

  lemma IdleStep(s: Sched, e: Event, s': Sched, idle: map<CpuId, VcpuId>, h: CpuId)
    requires Inv(s) && Step(s, e, s') && h in s.cpus && IdleAt(s, idle, h) && Spares(e, idle)
    ensures IdleAt(s', idle, h)
  {
    hide Inv;
    if e.Switch? {
      SwitchStarts(s, e.h, e.t, e.passed, e.next, s', idle[h]);
      IdleSwitch(s, e.h, e.t, e.passed, e.next, s', idle[h]);
    }
    if e.Migrate? {
      assert IpiOk(s, e.ipi) by { IpisAreOk(s, e.ipi); }
    }
  }

  lemma IpisAreOk(s: Sched, i: Ipi)
    requires Inv(s) && i in s.ipis
    ensures IpiOk(s, i)
  {
  }

  lemma IdleSwitch(s: Sched, h: CpuId, t: int, passed: multiset<VcpuId>, next: VcpuId, s': Sched, v: VcpuId)
    requires Step(s, Switch(h, t, passed, next), s') && v in s.vcpus && (s.vcpus[v].state == Ready || s.vcpus[v].state == Running)
    ensures v in s'.vcpus && s'.vcpus[v].hcpu == s.vcpus[v].hcpu && s'.vcpus[v].affinity == s.vcpus[v].affinity
    ensures s'.vcpus[v].state == Ready || s'.vcpus[v].state == Running
  {
  }

  lemma IdleFeeds(s: Sched, idle: map<CpuId, VcpuId>, h: CpuId, t: int)
    requires Inv(s) && h in s.cpus && IdleAt(s, idle, h)
    ensures CpuOk(s, h) && !Starved(PutBack(s, h, t), h)
  {
    PutBackKeepsInv(s, h, t);
    var s1, v := PutBack(s, h, t), idle[h];
    assert VcpuOk(s, v);
    PutBackParts(s, h, t, h, v);
    IdlePutBack(s, h, t, v);
    assert QueueExact(s1, h, v);
  }

  lemma IdlePutBack(s: Sched, h: CpuId, t: int, v: VcpuId)
    requires h in s.cpus && CpuOk(s, h) && v in s.vcpus && VcpuOk(s, v) && s.vcpus[v].hcpu == h
    requires s.vcpus[v].state == Ready || s.vcpus[v].state == Running
    ensures v in PutBack(s, h, t).vcpus && PutBack(s, h, t).vcpus[v].state == Ready && PutBack(s, h, t).vcpus[v].hcpu == h
  {
  }

  lemma {:induction false} RunKeepsIdle(states: seq<Sched>, events: seq<Event>, idle: map<CpuId, VcpuId>, k: nat)
    requires SafeRun(states, events) && k < |states| && IdleOk(states[0], idle)
    requires forall i | 0 <= i < |events| :: Spares(events[i], idle)
    ensures IdleOk(states[k], idle)
  {
    hide Inv, Safe, Spares, IdleAt, Step;
    if k > 0 {
      RunKeepsIdle(states, events, idle, k - 1);
      RunKeepsInv(states, events, k - 1);
      var s, e, s' := states[k - 1], events[k - 1], states[k];
      forall h | h in s'.cpus ensures IdleAt(s', idle, h) {
        SameCpus(s, e, s');
        assert IdleAt(s, idle, h);
        IdleStep(s, e, s', idle, h);
      }
    }
  }

  lemma SameCpus(s: Sched, e: Event, s': Sched)
    requires Step(s, e, s')
    ensures s'.cpus.Keys == s.cpus.Keys
  {
  }

  /** In no run does a host CPU run out of VCPUs to switch to, so the panic in the switch is unreachable. */
  lemma NeverStarved(states: seq<Sched>, events: seq<Event>, idle: map<CpuId, VcpuId>, k: nat, h: CpuId, t: int)
    requires SafeRun(states, events) && k < |states| && IdleOk(states[0], idle) && h in states[k].cpus
    requires forall i | 0 <= i < |events| :: Spares(events[i], idle)
    ensures CpuOk(states[k], h) && !Starved(PutBack(states[k], h, t), h)
  {
    RunKeepsIdle(states, events, idle, k);
    RunKeepsInv(states, events, k);
    assert IdleAt(states[k], idle, h);
    IdleFeeds(states[k], idle, h, t);
  }

  /** After start-up: on every host CPU its idle VCPU is queued and nothing runs yet; no other VCPU exists yet. */
  ghost predicate Booted(s: Sched, idle: map<CpuId, VcpuId>) {
    && idle.Keys == s.cpus.Keys && s.ipis == multiset{}
    && (forall h {:trigger BootedCpu(s, idle, h)} | h in s.cpus :: BootedCpu(s, idle, h))
    && (forall v {:trigger BootedVcpu(s, idle, v)} | v in s.vcpus :: BootedVcpu(s, idle, v))
  }

  ghost predicate BootedCpu(s: Sched, idle: map<CpuId, VcpuId>, h: CpuId)
    requires h in s.cpus
  {
    && IdleAt(s, idle, h) && s.vcpus[idle[h]].state == Ready
    && s.cpus[h].current == None && s.cpus[h].rq == multiset{idle[h]}
  }

  ghost predicate BootedVcpu(s: Sched, idle: map<CpuId, VcpuId>, v: VcpuId)
    requires v in s.vcpus
  {
    var c := s.vcpus[v];
    && c.hcpu in c.affinity && c.affinity <= s.cpus.Keys
    && (c.state == Unknown || (c.state == Ready && c.hcpu in idle && idle[c.hcpu] == v))
  }

  lemma BootedQueue(s: Sched, idle: map<CpuId, VcpuId>, h: CpuId, v: VcpuId)
    requires h in s.cpus && BootedCpu(s, idle, h) && (v in s.vcpus ==> BootedVcpu(s, idle, v))
    ensures QueueExact(s, h, v)
  {
  }

  lemma BootIsSafe(s: Sched, idle: map<CpuId, VcpuId>)
    requires Booted(s, idle)
    ensures Inv(s) && IdleOk(s, idle)
  {
    hide QueueExact, IdleAt;
    forall v | v in s.vcpus ensures VcpuOk(s, v) {
      assert BootedVcpu(s, idle, v);
    }
    forall h | h in s.cpus ensures CpuOk(s, h) && IdleAt(s, idle, h) {
      assert BootedCpu(s, idle, h);
    }
    forall h, v | h in s.cpus ensures QueueExact(s, h, v) {
      assert BootedCpu(s, idle, h);
      assert v in s.vcpus ==> BootedVcpu(s, idle, v);
      BootedQueue(s, idle, h, v);
    }
  }

  // --------------------------------------------------------------------- time

  predicate Alive(s: Sched, v: VcpuId) {
    v in s.vcpus && s.vcpus[v].state != Unknown && s.vcpus[v].state != Reset
  }

  function Booked(c: Vcpu): int {
    c.ready + c.running + c.paused + c.halted
  }

  /** The interrupt time a step takes off the running time of `v`. */
  function Deducted(s: Sched, e: Event, v: VcpuId): int {
    if e.Switch? && e.h in s.cpus && s.cpus[e.h].current == Some(v) && v in s.vcpus && s.vcpus[v].state == Running
    then s.cpus[e.h].irqNs - s.cpus[e.h].currentIrqNs
    else 0
  }

  function DeductedSum(states: seq<Sched>, events: seq<Event>, i: nat, k: nat, v: VcpuId): int
    requires i <= k <= |events| <= |states|
    decreases k
  {
    if i == k then 0 else DeductedSum(states, events, i, k - 1, v) + Deducted(states[k - 1], events[k - 1], v)
  }

  lemma TimeStep(s: Sched, e: Event, s': Sched, v: VcpuId)
    requires Step(s, e, s') && Alive(s, v) && Alive(s', v)
    ensures Booked(s'.vcpus[v]) + Deducted(s, e, v) - s'.vcpus[v].tstamp == Booked(s.vcpus[v]) - s.vcpus[v].tstamp
  {
    match e
    case Change(w, to, t) =>
      hide Enter, QueueAfter;
      ChangeBooks(s.vcpus[w], to, t);
      assert s'.vcpus[v] == s.vcpus[v] || w == v;
    case Switch(h, t, passed, next) =>
      hide PutBack, Taken;
      PutBackBooks(s, h, t, v);
      TakenBooks(PutBack(s, h, t), h, passed, next, t, v);
    case _ =>
  }

  lemma PutBackBooks(s: Sched, h: CpuId, t: int, v: VcpuId)
    requires h in s.cpus && (s.cpus[h].current.Some? ==> s.cpus[h].current.value in s.vcpus) && v in s.vcpus
    ensures var p := PutBack(s, h, t);
            && v in p.vcpus && h in p.cpus
            && Booked(p.vcpus[v]) - p.vcpus[v].tstamp ==
               Booked(s.vcpus[v]) - s.vcpus[v].tstamp
               - if s.cpus[h].current == Some(v) && s.vcpus[v].state == Running then s.cpus[h].irqNs - s.cpus[h].currentIrqNs else 0
  {
  }

  lemma TakenBooks(s: Sched, h: CpuId, passed: multiset<VcpuId>, next: VcpuId, t: int, v: VcpuId)
    requires h in s.cpus && next in s.vcpus && v in s.vcpus
    ensures var s' := Taken(s, h, passed, next, t);
            v in s'.vcpus && Booked(s'.vcpus[v]) - s'.vcpus[v].tstamp == Booked(s.vcpus[v]) - s.vcpus[v].tstamp
  {
  }

  /** Entering a state books the time up to now; only a reset clears what was booked. */
  lemma ChangeBooks(c: Vcpu, to: State, t: int)
    ensures to != Reset && c.state != Unknown && c.state != Reset ==>
              Booked(Enter(c, to, t)) - Enter(c, to, t).tstamp == Booked(c) - c.tstamp
  {
  }

  lemma LeavesReset(s: Sched, e: Event, s': Sched, v: VcpuId)
    requires Inv(s) && Step(s, e, s') && v in s.vcpus && s.vcpus[v].state == Reset && Alive(s', v)
    ensures e.Change? && s'.vcpus[v].tstamp == e.t && Booked(s'.vcpus[v]) == 0
  {
    assert VcpuOk(s, v);
    if e.Switch? {
      SwitchStarts(s, e.h, e.t, e.passed, e.next, s', v);
    }
  }

  /**
    From the moment `t` at which the VCPU left the reset state on, the time booked on it and the interrupt time
    taken off it add up to the time that has passed until its last time stamp.
   */
  lemma {:induction false} TimeIsConserved(states: seq<Sched>, events: seq<Event>, i: nat, k: nat, v: VcpuId)
    requires Run(states, events) && i < k < |states| && Inv(states[i])
    requires v in states[i].vcpus && states[i].vcpus[v].state == Reset
    requires forall j | i < j <= k :: Alive(states[j], v)
    ensures events[i].Change? && Alive(states[k], v)
    ensures Booked(states[k].vcpus[v]) + DeductedSum(states, events, i + 1, k, v) == states[k].vcpus[v].tstamp - events[i].t
  {
    hide Inv, Safe, Step, Booked, Deducted;
    assert Step(states[k - 1], events[k - 1], states[k]);
    if k == i + 1 {
      LeavesReset(states[i], events[i], states[k], v);
    } else {
      TimeIsConserved(states, events, i, k - 1, v);
      TimeStep(states[k - 1], events[k - 1], states[k], v);
    }
  }

  /** The counter that belongs to a state. */
  function TimeIn(c: Vcpu, st: State): int {
    match st
    case Ready => c.ready
    case Running => c.running
    case Paused => c.paused
    case Halted => c.halted
    case _ => 0
  }

  predicate Timed(st: State) {
    st != Unknown && st != Reset
  }

  /** Each step books the time that passes on the state the VCPU is in, and on no other. */
  lemma TimeStepByState(s: Sched, e: Event, s': Sched, v: VcpuId, st: State)
    requires Inv(s) && Step(s, e, s') && Alive(s, v) && Alive(s', v) && Timed(st)
    ensures TimeIn(s'.vcpus[v], st) ==
            TimeIn(s.vcpus[v], st)
            + (if s.vcpus[v].state == st then s'.vcpus[v].tstamp - s.vcpus[v].tstamp else 0)
            - (if st == Running then Deducted(s, e, v) else 0)
  {
    hide Inv;
    match e
    case Change(w, to, t) =>
      hide QueueAfter, ResumedAfter;
      assert s'.vcpus[v] == s.vcpus[v] || w == v;
    case Switch(h, t, passed, next) =>
      SwitchStarts(s, h, t, passed, next, s', v);
    case _ =>
  }

  /** The time that passes between the states `i` and `k` while the VCPU is in the state `st`. */
  function Spent(states: seq<Sched>, i: nat, k: nat, v: VcpuId, st: State): int
    requires i <= k < |states|
    decreases k
  {
    if i == k then 0
    else
      var a, b := states[k - 1], states[k];
      Spent(states, i, k - 1, v, st)
      + if v in a.vcpus && v in b.vcpus && a.vcpus[v].state == st then b.vcpus[v].tstamp - a.vcpus[v].tstamp else 0
  }

  /** Since it left the reset state, every counter of a VCPU holds the time it was in that state, less interrupt time. */
  lemma {:induction false} TimeByState(states: seq<Sched>, events: seq<Event>, i: nat, k: nat, v: VcpuId, st: State)
    requires SafeRun(states, events) && i < k < |states| && Timed(st)
    requires v in states[i].vcpus && states[i].vcpus[v].state == Reset
    requires forall j | i < j <= k :: Alive(states[j], v)
    ensures Alive(states[k], v)
    ensures TimeIn(states[k].vcpus[v], st) ==
            Spent(states, i + 1, k, v, st) - if st == Running then DeductedSum(states, events, i + 1, k, v) else 0
  {
    hide Inv, Safe, Step, TimeIn, Deducted;
    RunKeepsInv(states, events, k - 1);
    assert Step(states[k - 1], events[k - 1], states[k]);
    if k == i + 1 {
      NothingBooked(states[i], events[i], states[k], v, st);
    } else {
      TimeByState(states, events, i, k - 1, v, st);
      TimeStepByState(states[k - 1], events[k - 1], states[k], v, st);
    }
  }

  lemma NothingBooked(s: Sched, e: Event, s': Sched, v: VcpuId, st: State)
    requires Inv(s) && Step(s, e, s') && v in s.vcpus && s.vcpus[v].state == Reset && Alive(s', v)
    ensures TimeIn(s'.vcpus[v], st) == 0
  {
    assert VcpuOk(s, v);
    if e.Switch? {
      SwitchStarts(s, e.h, e.t, e.passed, e.next, s', v);
    }
  }

  // ------------------------------------------------- why the steps must be safe

  function Fresh(state: State, hcpu: CpuId, affinity: set<CpuId>): Vcpu {
    Vcpu(state, hcpu, affinity, false, 0, 0, 0, 0, 0, 0, 0)
  }

  /** VCPU 2 runs on host CPU 0; VCPUs 0 and 1 are the idle VCPUs of the two host CPUs. */
  function Witness(): Sched {
    Sched(map[0 := Fresh(Ready, 0, {0}), 1 := Fresh(Running, 1, {1}), 2 := Fresh(Running, 0, {0, 1})],
          map[0 := Cpu(Some(2), multiset{0}, 0, 0), 1 := Cpu(Some(1), multiset{}, 0, 0)], multiset{})
  }

  lemma WitnessOk()
    ensures Inv(Witness())
  {
    var s := Witness();
    forall v | v in s.vcpus ensures VcpuOk(s, v) {
    }
    forall h | h in s.cpus ensures CpuOk(s, h) {
    }
    forall h, v | h in s.cpus ensures QueueExact(s, h, v) {
      WitnessQueue(h, v);
    }
  }

  lemma WitnessQueue(h: CpuId, v: VcpuId)
    requires h in Witness().cpus
    ensures QueueExact(Witness(), h, v)
  {
  }

  /** A VCPU that is ready but still current is halted without leaving the queue: the next switch may start it. */
  lemma HaltedButQueued(s: Sched, v: VcpuId, t: int, u: int)
    requires Inv(s) && v in s.vcpus && s.vcpus[v].state == Ready && VcpuOk(s, v) && IsCurrent(s, v)
    ensures var h, s1 := s.vcpus[v].hcpu, Changed(s, v, Halted, t);
            && s1.vcpus[v].state == Halted && CpuOk(s1, h)
            && Picked(PutBack(s1, h, u), h, multiset{}, v) && Taken(PutBack(s1, h, u), h, multiset{}, v, u).vcpus[v].state == Running
  {
    hide Inv;
    assert QueueExact(s, s.vcpus[v].hcpu, v) by { QueuesAreExact(s, s.vcpus[v].hcpu, v); }
  }

  lemma QueuesAreExact(s: Sched, h: CpuId, v: VcpuId)
    requires Inv(s) && h in s.cpus
    ensures QueueExact(s, h, v)
  {
  }

  /** This does happen: pause, resume and halt a running VCPU before its host CPU switches, and it runs again. */
  lemma HaltedRunsAgain() returns (states: seq<Sched>, events: seq<Event>)
    ensures Run(states, events) && Inv(states[0]) && |events| == 4
    ensures Safe(states[0], events[0]) && Safe(states[1], events[1]) && !Safe(states[2], events[2])
    ensures events[2] == Change(2, Halted, 3) && events[3].Switch?
    ensures 2 in states[3].vcpus && states[3].vcpus[2].state == Halted
    ensures 2 in states[4].vcpus && states[4].vcpus[2].state == Running
  {
    hide Inv;
    var s0 := Witness();
    WitnessOk();
    var s1 := Changed(s0, 2, Paused, 1);
    var s2 := Changed(s1, 2, Ready, 2);
    ChangeKeepsInv(s0, 2, Paused, 1);
    ChangeKeepsInv(s1, 2, Ready, 2);
    HaltedButQueued(s2, 2, 3, 4);
    var s3 := Changed(s2, 2, Halted, 3);
    var s4 := Taken(PutBack(s3, 0, 4), 0, multiset{}, 2, 4);
    states, events := [s0, s1, s2, s3, s4], [Change(2, Paused, 1), Change(2, Ready, 2), Change(2, Halted, 3), Switch(0, 4, multiset{}, 2)];
    assert Step(s0, events[0], s1) && Step(s1, events[1], s2) && Step(s2, events[2], s3) && Step(s3, events[3], s4);
  }

  /** VCPU 2 is resumed on host CPU 1 while it is still the current VCPU of host CPU 0. */
  lemma MovedTooEarly() returns (s1: Sched, s2: Sched, s3: Sched)
    ensures Step(Witness(), Change(2, Paused, 1), s1) && Safe(Witness(), Change(2, Paused, 1))
    ensures Step(s1, SetHcpu(2, 1), s2) && !Safe(s1, SetHcpu(2, 1))
    ensures Step(s2, Change(2, Ready, 2), s3)
    ensures s3.vcpus.Keys == {0, 1, 2} && s3.vcpus[2].state == Ready && s3.vcpus[2].hcpu == 1
    ensures s3.vcpus[0] == Witness().vcpus[0] && s3.vcpus[1] == Witness().vcpus[1]
    ensures s3.cpus.Keys == {0, 1} && s3.cpus[0] == Cpu(Some(2), multiset{0}, 0, 0)
    ensures s3.cpus[1].current == Some(1) && s3.cpus[1].rq == multiset{2}
  {
    s1 := Changed(Witness(), 2, Paused, 1);
    s2 := HcpuSet(s1, 2, 1);
    assert s2.cpus[1] == Cpu(Some(1), multiset{}, 0, 0) && s2.vcpus[2].state == Paused && s2.vcpus[2].hcpu == 1;
    s3 := Changed(s2, 2, Ready, 2);
  }

  lemma StartedElsewhere(s3: Sched) returns (s4: Sched)
    requires s3.vcpus.Keys == {0, 1, 2} && s3.vcpus[2].state == Ready && s3.vcpus[2].hcpu == 1
    requires s3.vcpus[0] == Witness().vcpus[0] && s3.vcpus[1] == Witness().vcpus[1]
    requires s3.cpus.Keys == {0, 1} && s3.cpus[0] == Cpu(Some(2), multiset{0}, 0, 0)
    requires s3.cpus[1].current == Some(1) && s3.cpus[1].rq == multiset{2}
    ensures Step(s3, Switch(1, 3, multiset{}, 2), s4)
    ensures s4.vcpus.Keys == {0, 1, 2} && s4.vcpus[2].state == Running && s4.vcpus[2].hcpu == 1
    ensures s4.vcpus[0] == Witness().vcpus[0]
    ensures s4.cpus.Keys == {0, 1} && s4.cpus[0] == Cpu(Some(2), multiset{0}, 0, 0)
    ensures s4.cpus[1].current == Some(2) && s4.cpus[1].rq == multiset{1}
  {
    var p := PutBack(s3, 1, 3);
    assert p.cpus[1].rq == multiset{1, 2};
    assert Picked(p, 1, multiset{}, 2);
    s4 := Taken(p, 1, multiset{}, 2, 3);
  }

  lemma PutBackByTheOther(s4: Sched) returns (s5: Sched)
    requires s4.vcpus.Keys == {0, 1, 2} && s4.vcpus[2].state == Running && s4.vcpus[2].hcpu == 1
    requires s4.vcpus[0] == Witness().vcpus[0]
    requires s4.cpus.Keys == {0, 1} && s4.cpus[0] == Cpu(Some(2), multiset{0}, 0, 0)
    requires s4.cpus[1].current == Some(2) && s4.cpus[1].rq == multiset{1}
    ensures Step(s4, Switch(0, 4, multiset{}, 0), s5)
    ensures 2 in s5.vcpus && 0 in s5.cpus && 1 in s5.cpus && s5.vcpus[2].hcpu == 1
    ensures s5.cpus[1].current == Some(2) && 2 in s5.cpus[0].rq && 2 !in s5.cpus[1].rq
  {
    var p := PutBack(s4, 0, 4);
    assert p.cpus[0].rq == multiset{0, 2};
    assert Picked(p, 0, multiset{}, 0);
    s5 := Taken(p, 0, multiset{}, 0, 4);
  }

  /**
    A paused VCPU that is still current can be given another host CPU and resumed there: the new host CPU starts
    it, and when the old one switches it puts the VCPU it takes for its own into the wrong queue.
   */
  lemma QueuedInTheWrongPlace() returns (states: seq<Sched>, events: seq<Event>)
    ensures Run(states, events) && Inv(states[0]) && |events| == 5
    ensures Safe(states[0], events[0]) && !Safe(states[1], events[1])
    ensures events[1] == SetHcpu(2, 1)
    ensures var s := states[5];
            && 2 in s.vcpus && 0 in s.cpus && 1 in s.cpus && s.vcpus[2].hcpu == 1
            && s.cpus[1].current == Some(2) && 2 in s.cpus[0].rq && 2 !in s.cpus[1].rq
  {
    hide Inv, Step, Safe;
    WitnessOk();
    var s1, s2, s3 := MovedTooEarly();
    var s4 := StartedElsewhere(s3);
    var s5 := PutBackByTheOther(s4);
    states := [Witness(), s1, s2, s3, s4, s5];
    events := [Change(2, Paused, 1), SetHcpu(2, 1), Change(2, Ready, 2), Switch(1, 3, multiset{}, 2), Switch(0, 4, multiset{}, 0)];
  }
}
