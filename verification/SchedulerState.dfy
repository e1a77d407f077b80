/**
  The VCPU scheduler as a state machine: per host CPU a ready queue and a current VCPU, per VCPU its
  state, host CPU, resumed flag and time counters.  Each section the code runs under the scheduling lock of
  a VCPU is one step.  The order of a ready queue is up to the scheduling algorithm and is not recorded.
 */
module SchedulerState {
  import opened Options

  type VcpuId = nat
  type CpuId = nat

  datatype State = Unknown | Reset | Ready | Running | Paused | Halted

  datatype Vcpu = Vcpu(state: State, hcpu: CpuId, affinity: set<CpuId>, resumed: bool, resets: nat,
                       tstamp: int, resetTstamp: int, ready: int, running: int, paused: int, halted: int)

  datatype Cpu = Cpu(current: Option<VcpuId>, rq: multiset<VcpuId>, irqNs: int, currentIrqNs: int)

  /** A request to the host CPU `from` to hand `vcpu` over to the host CPU `to`. */
  datatype Ipi = Ipi(vcpu: VcpuId, from: CpuId, to: CpuId)

  datatype Sched = Sched(vcpus: map<VcpuId, Vcpu>, cpus: map<CpuId, Cpu>, ipis: multiset<Ipi>)

  // ----------------------------------------------------------- state changes

  datatype Verdict = Skip | Refuse | Go

  /** What becomes of a request to bring a VCPU from one state to another. */
  function Judge(from: State, resumed: bool, to: State): Verdict {
    match to
    case Unknown => Go
    case Reset => if from == Reset then Skip else Go
    case Ready => if from == Reset || from == Paused then Go else if from == Running || from == Ready then Skip else Refuse
    case Running => Refuse
    case Paused =>
      if from == Paused || ((from == Ready || from == Running) && resumed) then Skip
      else if from == Ready || from == Running then Go else Refuse
    case Halted => if from == Ready || from == Running then Go else Refuse
  }

  function ResumedAfter(from: State, resumed: bool, to: State): bool {
    match to
    case Reset => resumed && (from == Unknown || from == Reset)
    case Ready => resumed || from == Running
    case Paused => resumed && from != Ready && from != Running
    case Halted => resumed && from != Ready && from != Running
    case _ => resumed
  }

  /** Books the time since the last time stamp on the state the VCPU is in. */
  function Tally(c: Vcpu, t: int): Vcpu {
    match c.state
    case Ready => c.(ready := c.ready + t - c.tstamp)
    case Running => c.(running := c.running + t - c.tstamp)
    case Paused => c.(paused := c.paused + t - c.tstamp)
    case Halted => c.(halted := c.halted + t - c.tstamp)
    case _ => c
  }

  function Enter(c: Vcpu, to: State, t: int): Vcpu {
    var d := Tally(c, t);
    if to == Reset then
      d.(state := to, tstamp := t, resetTstamp := t, ready := 0, running := 0, paused := 0, halted := 0,
         resets := if c.state == Unknown then c.resets else c.resets + 1)
    else
      d.(state := to, tstamp := t)
  }

  predicate IsCurrent(s: Sched, v: VcpuId)
    requires v in s.vcpus && s.vcpus[v].hcpu in s.cpus
  {
    s.cpus[s.vcpus[v].hcpu].current == Some(v)
  }

  /** The VCPU enters or leaves the ready queue of its host CPU along with the change. */
  function QueueAfter(s: Sched, v: VcpuId, to: State): multiset<VcpuId>
    requires v in s.vcpus && s.vcpus[v].hcpu in s.cpus
  {
    var c, rq := s.vcpus[v], s.cpus[s.vcpus[v].hcpu].rq;
    if Judge(c.state, c.resumed, to) != Go then rq
    else if to == Ready then rq + multiset{v}
    else if to != Unknown && c.state == Ready && !IsCurrent(s, v) then rq - multiset{v}
    else rq
  }

  function Changed(s: Sched, v: VcpuId, to: State, t: int): Sched
    requires v in s.vcpus && s.vcpus[v].hcpu in s.cpus
  {
    var c := s.vcpus[v];
    var d := if Judge(c.state, c.resumed, to) == Go then Enter(c, to, t) else c;
    s.(vcpus := s.vcpus[v := d.(resumed := ResumedAfter(c.state, c.resumed, to))],
       cpus := s.cpus[c.hcpu := s.cpus[c.hcpu].(rq := QueueAfter(s, v, to))])
  }

  // --------------------------------------------------------- context switches

  /** A running VCPU goes back to the ready queue; the time spent in interrupts is not its own. */
  function PutBack(s: Sched, h: CpuId, t: int): Sched
    requires h in s.cpus && (s.cpus[h].current.Some? ==> s.cpus[h].current.value in s.vcpus)
  {
    var p := s.cpus[h];
    if p.current.Some? && s.vcpus[p.current.value].state == Running then
      var c := s.vcpus[p.current.value];
      s.(vcpus := s.vcpus[p.current.value :=
                            c.(state := Ready, tstamp := t, running := c.running + t - c.tstamp - (p.irqNs - p.currentIrqNs))],
         cpus := s.cpus[h := p.(rq := p.rq + multiset{p.current.value}, currentIrqNs := p.irqNs)])
    else
      s
  }

  /** `next` is taken from the queue and can run; the ones in `passed` were taken before it and had stopped being ready. */
  ghost predicate Picked(s: Sched, h: CpuId, passed: multiset<VcpuId>, next: VcpuId)
    requires h in s.cpus
  {
    && passed + multiset{next} <= s.cpus[h].rq && next in s.vcpus
    && (forall v | v in passed :: v in s.vcpus && s.vcpus[v].state != Ready && s.cpus[h].current != Some(v))
    && (if s.cpus[h].current == None then passed == multiset{}
        else s.cpus[h].current == Some(next) || s.vcpus[next].state == Ready)
  }

  function Started(c: Vcpu, t: int): Vcpu {
    c.(state := Running, ready := c.ready + t - c.tstamp, resumed := false, tstamp := t)
  }

  function Taken(s: Sched, h: CpuId, passed: multiset<VcpuId>, next: VcpuId, t: int): Sched
    requires h in s.cpus && next in s.vcpus
  {
    var p := s.cpus[h];
    s.(vcpus := s.vcpus[next := Started(s.vcpus[next], t)],
       cpus := s.cpus[h := p.(current := Some(next), rq := p.rq - passed - multiset{next}, currentIrqNs := p.irqNs)])
  }

  /** Nothing in the queue can run: the code stops the machine. */
  ghost predicate Starved(s: Sched, h: CpuId)
    requires h in s.cpus
  {
    if s.cpus[h].current == None then s.cpus[h].rq == multiset{}
    else forall v | v in s.cpus[h].rq :: v in s.vcpus && s.vcpus[v].state != Ready && s.cpus[h].current != Some(v)
  }

  // --------------------------------------------------------------- migration

  function HcpuSet(s: Sched, v: VcpuId, h: CpuId): Sched
    requires v in s.vcpus
  {
    var c := s.vcpus[v];
    if c.hcpu == h || h !in c.affinity then s
    else if c.state == Ready || c.state == Running then s.(ipis := s.ipis + multiset{Ipi(v, c.hcpu, h)})
    else s.(vcpus := s.vcpus[v := c.(hcpu := h)])
  }

  predicate Migrates(s: Sched, i: Ipi)
    requires i.vcpu in s.vcpus
  {
    s.vcpus[i.vcpu].state == Ready && s.vcpus[i.vcpu].hcpu == i.from && i.from != i.to
  }

  function Migrated(s: Sched, i: Ipi): Sched
    requires i.vcpu in s.vcpus && i.from in s.cpus && i.to in s.cpus
  {
    var r := s.(ipis := s.ipis - multiset{i});
    if Migrates(s, i) then
      r.(vcpus := s.vcpus[i.vcpu := s.vcpus[i.vcpu].(hcpu := i.to)],
         cpus := s.cpus[i.from := s.cpus[i.from].(rq := s.cpus[i.from].rq - multiset{i.vcpu})]
                       [i.to := s.cpus[i.to].(rq := s.cpus[i.to].rq + multiset{i.vcpu})])
    else r
  }

  // -------------------------------------------------------- time book-keeping

  function Synced(s: Sched, v: VcpuId, t: int): Sched
    requires v in s.vcpus
  {
    var c := s.vcpus[v];
    if c.state == Unknown || c.state == Reset then s
    else s.(vcpus := s.vcpus[v := Tally(c, t).(tstamp := t)])
  }

  function IrqSpent(s: Sched, h: CpuId, ns: int): Sched
    requires h in s.cpus
  {
    s.(cpus := s.cpus[h := s.cpus[h].(irqNs := s.cpus[h].irqNs + ns)])
  }

  // ------------------------------------------------------------------- steps

  datatype Event =
    | Change(v: VcpuId, to: State, t: int)
    | Switch(h: CpuId, t: int, passed: multiset<VcpuId>, next: VcpuId)
    | SetHcpu(v: VcpuId, h: CpuId)
    | Migrate(ipi: Ipi)
    | Stats(v: VcpuId, t: int)
    | Irq(h: CpuId, ns: int)

  ghost predicate Step(s: Sched, e: Event, s': Sched) {
    match e
    case Change(v, to, t) => v in s.vcpus && s.vcpus[v].hcpu in s.cpus && s' == Changed(s, v, to, t)
    case Switch(h, t, passed, next) =>
      && h in s.cpus && (s.cpus[h].current.Some? ==> s.cpus[h].current.value in s.vcpus)
      && Picked(PutBack(s, h, t), h, passed, next) && s' == Taken(PutBack(s, h, t), h, passed, next, t)
    case SetHcpu(v, h) => v in s.vcpus && s' == HcpuSet(s, v, h)
    case Migrate(i) => i in s.ipis && i.vcpu in s.vcpus && i.from in s.cpus && i.to in s.cpus && s' == Migrated(s, i)
    case Stats(v, t) => v in s.vcpus && s' == Synced(s, v, t)
    case Irq(h, ns) => h in s.cpus && s' == IrqSpent(s, h, ns)
  }
}
