/** Runs of the frame allocator: allocations, reservations and the frees that match them. */
module HostRamRuns {
  import opened Bits
  import opened Alignment
  import opened FrameBits
  import opened HostRamSpec

  /** A run of frames that was handed out and not given back. */
  datatype Live = Live(bank: nat, pos: nat, cnt: nat, order: nat)

  datatype Ram = Ram(banks: seq<Bank>, live: set<Live>)

  datatype Event =
    | Alloc(bank: nat, order: nat, cnt: nat, accepts: nat -> bool, pos: nat)
    | Reserve(bank: nat, pa: nat, sz: nat)
    | Free(run: Live)

  predicate Covers(l: Live, bank: nat, frame: nat) {
    l.bank == bank && l.pos <= frame < l.pos + l.cnt
  }

  predicate Disjoint(l: Live, m: Live) {
    l.bank == m.bank ==> l.pos + l.cnt <= m.pos || m.pos + m.cnt <= l.pos
  }

  ghost predicate BankOk(b: Bank) {
    Shaped(b) && Counted(b)
  }

  /** A live run lies inside one bank, is aligned, and all its frames are marked. */
  ghost predicate LiveOk(banks: seq<Bank>, l: Live) {
    && l.bank < |banks| && 0 < l.cnt && l.pos + l.cnt <= banks[l.bank].frames
    && Address(banks[l.bank].start, l.pos) % Pow2(l.order) == 0
    && RunSet(banks[l.bank].bits, l.pos, l.cnt)
  }

  /** A marked frame of the bank belongs to a live run. */
  ghost predicate Owned(r: Ram, bank: nat, frame: nat)
    requires bank < |r.banks| && frame < |r.banks[bank].bits|
  {
    r.banks[bank].bits[frame] && frame < r.banks[bank].frames ==> exists l :: l in r.live && Covers(l, bank, frame)
  }

  ghost predicate Inv(r: Ram) {
    && (forall i {:trigger BankOk(r.banks[i])} | 0 <= i < |r.banks| :: BankOk(r.banks[i]))
    && (forall l {:trigger LiveOk(r.banks, l)} | l in r.live :: LiveOk(r.banks, l))
    && (forall l, m {:trigger Disjoint(l, m)} | l in r.live && m in r.live && l != m :: Disjoint(l, m))
    && (forall i, f {:trigger Owned(r, i, f)} | 0 <= i < |r.banks| && 0 <= f < |r.banks[i].bits| :: Owned(r, i, f))
  }

  ghost predicate StepOf(r: Ram, e: Event, r': Ram) {
    match e
    case Alloc(i, order, cnt, accepts, pos) =>
      && i < |r.banks| && order >= PAGE_SHIFT && cnt > 0 && FirstFit(r.banks[i], order, cnt, accepts, pos)
      && r' == Ram(r.banks[i := Taken(r.banks[i], pos, cnt)], r.live + {Live(i, pos, cnt, order)})
    case Reserve(i, pa, sz) =>
      && i < |r.banks| && r.banks[i].start <= pa && sz > 0
      && var pos, cnt := FrameOf(r.banks[i].start, pa), SizeToPage(sz);
      && pos + cnt <= r.banks[i].frames && RunFree(r.banks[i].bits, pos, cnt)
      && r' == Ram(r.banks[i := Taken(r.banks[i], pos, cnt)], r.live + {Live(i, pos, cnt, PAGE_SHIFT)})
    case Free(l) =>
      && l in r.live && l.bank < |r.banks|
      && r' == Ram(r.banks[l.bank := Freed(r.banks[l.bank], l.pos, l.cnt)], r.live - {l})
  }

  /** An allocation is served from a bank that has an aligned free run inside it. */
  ghost predicate Safe(r: Ram, e: Event) {
    e.Alloc? && e.bank < |r.banks| ==> HasRoom(r.banks[e.bank], e.order, e.cnt, e.accepts)
  }

  ghost predicate AllPadded(r: Ram) {
    forall i | 0 <= i < |r.banks| :: Shaped(r.banks[i]) && Padded(r.banks[i])
  }

  // ------------------------------------------------------------------ taking

  /** The new run: free, inside the bank, aligned. */
  ghost predicate Fresh(r: Ram, l: Live) {
    && l.bank < |r.banks| && 0 < l.cnt && l.pos + l.cnt <= r.banks[l.bank].frames
    && Address(r.banks[l.bank].start, l.pos) % Pow2(l.order) == 0
    && RunFree(r.banks[l.bank].bits, l.pos, l.cnt)
  }

  function WithRun(r: Ram, l: Live): Ram
    requires l.bank < |r.banks|
  {
    Ram(r.banks[l.bank := Taken(r.banks[l.bank], l.pos, l.cnt)], r.live + {l})
  }

  lemma TakenBank(b: Bank, pos: nat, cnt: nat)
    requires BankOk(b) && RunFree(b.bits, pos, cnt) && cnt > 0 && pos + cnt <= b.frames
    ensures BankOk(Taken(b, pos, cnt))
  {
    hide Clear;
    TakeKeepsCount(b, pos, cnt);
  }

  lemma TakenLive(r: Ram, l: Live, m: Live)
    requires Fresh(r, l) && LiveOk(r.banks, m)
    ensures LiveOk(WithRun(r, l).banks, m) && Disjoint(l, m)
  {
    var f := if l.pos < m.pos then m.pos else l.pos;
    assert f < l.pos + l.cnt ==> !r.banks[l.bank].bits[f];
  }

  lemma TakenOwned(r: Ram, l: Live, i: nat, f: nat)
    requires Fresh(r, l) && i < |r.banks| && f < |r.banks[i].bits| && Owned(r, i, f)
    ensures Owned(WithRun(r, l), i, f)
  {
    var r' := WithRun(r, l);
    if r'.banks[i].bits[f] && f < r.banks[i].frames {
      if r.banks[i].bits[f] {
        var m :| m in r.live && Covers(m, i, f);
        assert m in r'.live;
      } else {
        assert l in r'.live && Covers(l, i, f);
      }
    }
  }

  lemma TakeKeepsInv(r: Ram, l: Live)
    requires Inv(r) && Fresh(r, l)
    ensures Inv(WithRun(r, l)) && l !in r.live
  {
    hide BankOk, Owned, Address, Taken;
    var r' := WithRun(r, l);
    assert BankOk(r.banks[l.bank]);
    TakenBank(r.banks[l.bank], l.pos, l.cnt);
    assert l !in r.live by { NotLive(r, l); }
    assert LiveOk(r'.banks, l) by { TakenNew(r, l); }
    forall m | m in r'.live ensures LiveOk(r'.banks, m) && (m != l ==> Disjoint(l, m)) {
      if m != l {
        assert LiveOk(r.banks, m);
        TakenLive(r, l, m);
      }
    }
    forall k, m | k in r'.live && m in r'.live && k != m ensures Disjoint(k, m) {
      assert k != l && m != l ==> Disjoint(k, m);
    }
    forall i, f | 0 <= i < |r'.banks| && 0 <= f < |r'.banks[i].bits| ensures Owned(r', i, f) {
      TakenSize(r, l, i);
      assert Owned(r, i, f);
      TakenOwned(r, l, i, f);
    }
  }

  lemma NotLive(r: Ram, l: Live)
    requires Inv(r) && Fresh(r, l)
    ensures l !in r.live
  {
    assert !r.banks[l.bank].bits[l.pos];
    assert l in r.live ==> LiveOk(r.banks, l);
  }

  lemma TakenNew(r: Ram, l: Live)
    requires Fresh(r, l)
    ensures LiveOk(WithRun(r, l).banks, l)
  {
  }

  lemma TakenSize(r: Ram, l: Live, i: nat)
    requires l.bank < |r.banks| && i < |r.banks|
    ensures |WithRun(r, l).banks[i].bits| == |r.banks[i].bits|
  {
  }

  // ----------------------------------------------------------------- freeing

  function WithoutRun(r: Ram, l: Live): Ram
    requires l.bank < |r.banks|
  {
    Ram(r.banks[l.bank := Freed(r.banks[l.bank], l.pos, l.cnt)], r.live - {l})
  }

  lemma FreedBank(b: Bank, pos: nat, cnt: nat)
    requires BankOk(b) && RunSet(b.bits, pos, cnt) && pos + cnt <= b.frames
    ensures BankOk(Freed(b, pos, cnt))
  {
    hide Clear;
    FreeKeepsCount(b, pos, cnt);
  }

  lemma FreedLive(r: Ram, l: Live, m: Live)
    requires LiveOk(r.banks, l) && LiveOk(r.banks, m) && Disjoint(l, m)
    ensures LiveOk(WithoutRun(r, l).banks, m)
  {
  }

  lemma FreedOwned(r: Ram, l: Live, i: nat, f: nat)
    requires LiveOk(r.banks, l) && i < |r.banks| && f < |r.banks[i].bits| && Owned(r, i, f)
    ensures Owned(WithoutRun(r, l), i, f)
  {
    var r' := WithoutRun(r, l);
    if r'.banks[i].bits[f] && f < r.banks[i].frames {
      var m :| m in r.live && Covers(m, i, f);
      assert m != l;
      assert m in r'.live;
    }
  }

  lemma FreeKeepsInv(r: Ram, l: Live)
    requires Inv(r) && l in r.live
    ensures LiveOk(r.banks, l) && Inv(WithoutRun(r, l))
  {
    hide BankOk, Owned, Address, Freed;
    assert LiveOk(r.banks, l);
    var r' := WithoutRun(r, l);
    assert BankOk(r.banks[l.bank]);
    FreedBank(r.banks[l.bank], l.pos, l.cnt);
    forall m | m in r'.live ensures LiveOk(r'.banks, m) {
      assert LiveOk(r.banks, m) && Disjoint(l, m);
      FreedLive(r, l, m);
    }
    forall i, f | 0 <= i < |r'.banks| && 0 <= f < |r'.banks[i].bits| ensures Owned(r', i, f) {
      FreedSize(r, l, i);
      assert Owned(r, i, f);
      FreedOwned(r, l, i, f);
    }
  }

  lemma FreedSize(r: Ram, l: Live, i: nat)
    requires l.bank < |r.banks| && i < |r.banks|
    ensures |WithoutRun(r, l).banks[i].bits| == |r.banks[i].bits|
  {
  }

  // ----------------------------------------------- giving back a part of a run

  /** What is left of a run when its first `n` frames are given back. */
  function Rest(l: Live, n: nat): set<Live> {
    if n < l.cnt then {Live(l.bank, l.pos + n, l.cnt - n, PAGE_SHIFT)} else {}
  }

  /** The first `n` frames of the run are given back; nothing refers to the others any more, but they stay marked. */
  function Trimmed(r: Ram, l: Live, n: nat): Ram
    requires l.bank < |r.banks|
  {
    Ram(r.banks[l.bank := Freed(r.banks[l.bank], l.pos, n)], r.live - {l} + Rest(l, n))
  }

  lemma SplitKeepsInv(r: Ram, l: Live, n: nat)
    requires Inv(r) && l in r.live && 0 < n < l.cnt
    ensures Inv(Ram(r.banks, r.live - {l} + {Live(l.bank, l.pos, n, l.order)} + Rest(l, n)))
    ensures Live(l.bank, l.pos, n, l.order) !in r.live
  {
    hide BankOk, Pow2;
    assert LiveOk(r.banks, l) && BankOk(r.banks[l.bank]);
    var a, b := Live(l.bank, l.pos, n, l.order), Live(l.bank, l.pos + n, l.cnt - n, PAGE_SHIFT);
    var q := Ram(r.banks, r.live - {l} + {a} + Rest(l, n));
    StartIsPage(r.banks[l.bank]);
    FramesAreAligned(r.banks[l.bank].start, b.pos);
    assert LiveOk(r.banks, a) && LiveOk(r.banks, b) && Disjoint(a, b) && Disjoint(b, a);
    forall m | m in r.live && m != l ensures LiveOk(r.banks, m) && Disjoint(m, a) && Disjoint(m, b) && m != a {
      assert Disjoint(m, l) && LiveOk(r.banks, m);
    }
    forall k, m | k in q.live && m in q.live && k != m ensures Disjoint(k, m) {
      assert k in r.live && m in r.live ==> Disjoint(k, m);
    }
    forall i, f | 0 <= i < |q.banks| && 0 <= f < |q.banks[i].bits| ensures Owned(q, i, f) {
      SplitOwned(r, l, n, i, f);
    }
  }

  lemma StartIsPage(b: Bank)
    requires BankOk(b)
    ensures b.start % PAGE_SIZE == 0
  {
  }

  lemma SplitOwned(r: Ram, l: Live, n: nat, i: nat, f: nat)
    requires Inv(r) && l in r.live && 0 < n < l.cnt && i < |r.banks| && f < |r.banks[i].bits|
    ensures Owned(Ram(r.banks, r.live - {l} + {Live(l.bank, l.pos, n, l.order)} + Rest(l, n)), i, f)
  {
    hide BankOk, LiveOk;
    assert Owned(r, i, f);
    var q := Ram(r.banks, r.live - {l} + {Live(l.bank, l.pos, n, l.order)} + Rest(l, n));
    if m :| m in r.live && Covers(m, i, f) {
      if m != l {
        assert m in q.live;
      } else if f < l.pos + n {
        assert Live(l.bank, l.pos, n, l.order) in q.live && Covers(Live(l.bank, l.pos, n, l.order), i, f);
      } else {
        assert Live(l.bank, l.pos + n, l.cnt - n, PAGE_SHIFT) in q.live && Covers(Live(l.bank, l.pos + n, l.cnt - n, PAGE_SHIFT), i, f);
      }
    }
  }

  /** Giving back a part of a run keeps the invariant: the rest is a live run that nobody holds. */
  lemma TrimKeepsInv(r: Ram, l: Live, n: nat)
    requires Inv(r) && l in r.live && 0 < n <= l.cnt
    ensures LiveOk(r.banks, l) && Inv(Trimmed(r, l, n)) && r.live !! Rest(l, n)
  {
    hide Inv;
    FreeKeepsInv(r, l);
    if n == l.cnt {
      assert Trimmed(r, l, n) == WithoutRun(r, l);
    } else {
      var a := Live(l.bank, l.pos, n, l.order);
      var q := Ram(r.banks, r.live - {l} + {a} + Rest(l, n));
      SplitKeepsInv(r, l, n);
      FreeKeepsInv(q, a);
      assert q.live - {a} == r.live - {l} + Rest(l, n);
      assert WithoutRun(q, a) == Trimmed(r, l, n);
      RestIsNew(r, l, n);
    }
  }

  lemma RestIsNew(r: Ram, l: Live, n: nat)
    requires Inv(r) && l in r.live && 0 < n < l.cnt
    ensures r.live !! Rest(l, n)
  {
    var b := Live(l.bank, l.pos + n, l.cnt - n, PAGE_SHIFT);
    assert b in r.live ==> Disjoint(b, l);
  }

  // -------------------------------------------------------------------- runs

  /** From a state that satisfies the invariant, a step leads to one exactly if it is safe. */
  lemma StepKeepsInv(r: Ram, e: Event, r': Ram)
    requires Inv(r) && StepOf(r, e, r')
    ensures Inv(r') <==> Safe(r, e)
  {
    hide Inv, HasRoom;
    match e
    case Alloc(i, order, cnt, accepts, pos) =>
      FirstFitInside(r.banks[i], order, cnt, accepts, pos);
      if Safe(r, e) {
        AllocIsFresh(r, i, order, cnt, accepts, pos);
        TakeKeepsInv(r, Live(i, pos, cnt, order));
      } else {
        OverrunBreaksInv(r, i, order, cnt, accepts, pos, r');
      }
    case Reserve(i, pa, sz) =>
      var pos, cnt := FrameOf(r.banks[i].start, pa), SizeToPage(sz);
      ReserveIsFresh(r, i, pos, cnt);
      TakeKeepsInv(r, Live(i, pos, cnt, PAGE_SHIFT));
    case Free(l) =>
      FreeKeepsInv(r, l);
  }

  lemma AllocIsFresh(r: Ram, i: nat, order: nat, cnt: nat, accepts: nat -> bool, pos: nat)
    requires i < |r.banks| && cnt > 0 && FirstFit(r.banks[i], order, cnt, accepts, pos) && pos + cnt <= r.banks[i].frames
    ensures Fresh(r, Live(i, pos, cnt, order))
  {
    hide Pow2;
  }

  lemma OverrunBreaksInv(r: Ram, i: nat, order: nat, cnt: nat, accepts: nat -> bool, pos: nat, r': Ram)
    requires Inv(r) && i < |r.banks| && FirstFit(r.banks[i], order, cnt, accepts, pos) && pos + cnt > r.banks[i].frames
    requires r'.banks == r.banks[i := Taken(r.banks[i], pos, cnt)]
    ensures !Inv(r')
  {
    hide Clear, Pow2;
    assert BankOk(r.banks[i]);
    TakeKeepsCount(r.banks[i], pos, cnt);
    assert !BankOk(r'.banks[i]);
  }

  lemma ReserveIsFresh(r: Ram, i: nat, pos: nat, cnt: nat)
    requires Inv(r) && i < |r.banks| && cnt > 0 && pos + cnt <= r.banks[i].frames && RunFree(r.banks[i].bits, pos, cnt)
    ensures Fresh(r, Live(i, pos, cnt, PAGE_SHIFT))
  {
    assert BankOk(r.banks[i]);
    FramesAreAligned(r.banks[i].start, pos);
  }

  lemma FramesAreAligned(start: nat, pos: nat)
    requires start % PAGE_SIZE == 0
    ensures Address(start, pos) % Pow2(PAGE_SHIFT) == 0
  {
    hide Pow2;
    PagesAligned();
    assert start == PAGE_SIZE * (start / PAGE_SIZE);
    assert Address(start, pos) == PAGE_SIZE * (start / PAGE_SIZE + pos);
    MulMod(start / PAGE_SIZE + pos, PAGE_SIZE);
  }

  ghost predicate Run(states: seq<Ram>, events: seq<Event>) {
    && |states| == |events| + 1 && Inv(states[0])
    && forall i | 0 <= i < |events| :: StepOf(states[i], events[i], states[i + 1])
  }

  ghost predicate SafeRun(states: seq<Ram>, events: seq<Event>) {
    Run(states, events) && forall i | 0 <= i < |events| :: Safe(states[i], events[i])
  }

  lemma {:induction false} RunKeepsInv(states: seq<Ram>, events: seq<Event>, k: nat)
    requires SafeRun(states, events) && k < |states|
    ensures Inv(states[k])
  {
    hide Inv, StepOf, Safe;
    if k > 0 {
      RunKeepsInv(states, events, k - 1);
      StepKeepsInv(states[k - 1], events[k - 1], states[k]);
    }
  }

  // ----------------------------------------------------------------- padding

  /** Where the bits past the ends of the banks are set, every step is safe, and they stay set. */
  lemma PaddedStep(r: Ram, e: Event, r': Ram)
    requires Inv(r) && AllPadded(r) && StepOf(r, e, r')
    ensures Safe(r, e) && AllPadded(r')
  {
    hide Clear, Pow2;
    match e
    case Alloc(i, order, cnt, accepts, pos) =>
      PaddedIsInside(r.banks[i], order, cnt, accepts, pos);
      TakenStaysPadded(r.banks[i], pos, cnt, true);
    case Reserve(i, pa, sz) =>
      TakenStaysPadded(r.banks[i], FrameOf(r.banks[i].start, pa), SizeToPage(sz), true);
    case Free(l) =>
      assert LiveOk(r.banks, l);
      TakenStaysPadded(r.banks[l.bank], l.pos, l.cnt, false);
  }

  lemma TakenStaysPadded(b: Bank, pos: nat, cnt: nat, value: bool)
    requires Shaped(b) && Padded(b) && pos + cnt <= b.frames
    ensures var c := if value then Taken(b, pos, cnt) else Freed(b, pos, cnt); Shaped(c) && Padded(c)
  {
  }

  /** So every run that begins with padded banks is safe. */
  lemma {:induction false} PaddedRunsAreSafe(states: seq<Ram>, events: seq<Event>, k: nat)
    requires Run(states, events) && AllPadded(states[0]) && k < |states|
    ensures Inv(states[k]) && AllPadded(states[k]) && (k < |events| ==> Safe(states[k], events[k]))
  {
    hide Inv, StepOf, Safe, AllPadded;
    if k > 0 {
      PaddedRunsAreSafe(states, events, k - 1);
      PaddedStep(states[k - 1], events[k - 1], states[k]);
      StepKeepsInv(states[k - 1], events[k - 1], states[k]);
    }
    if k < |events| {
      PaddedStep(states[k], events[k], states[k + 1]);
    }
  }

  /** New banks satisfy the invariant with no live runs; they are padded exactly if their frames fill whole words. */
  lemma FreshBanksAreSound(banks: seq<Bank>)
    requires forall i | 0 <= i < |banks| ::
               banks[i].start % PAGE_SIZE == 0 && banks[i] == FreshBank(banks[i].start, banks[i].frames)
    ensures Inv(Ram(banks, {}))
    ensures AllPadded(Ram(banks, {})) <==> forall i | 0 <= i < |banks| :: banks[i].frames % BITS_PER_LONG == 0
  {
    hide Clear;
    var r := Ram(banks, {});
    forall i | 0 <= i < |banks|
      ensures BankOk(r.banks[i]) && (Padded(r.banks[i]) <==> banks[i].frames % BITS_PER_LONG == 0)
    {
      FreshBankIs(banks[i].start, banks[i].frames);
    }
  }

  /**
    At every point of a run the live runs are disjoint, aligned and inside their bank, the free counts are the
    numbers of clear bits, and a frame is marked exactly if a live run holds it.
   */
  lemma LiveRunsAreSound(states: seq<Ram>, events: seq<Event>, k: nat, l: Live, m: Live, i: nat, f: nat)
    requires SafeRun(states, events) && k < |states|
    requires i < |states[k].banks| && f < states[k].banks[i].frames
    requires l in states[k].live && m in states[k].live
    ensures var r := states[k];
            && (l != m ==> Disjoint(l, m))
            && l.bank < |r.banks| && l.pos + l.cnt <= r.banks[l.bank].frames
            && Address(r.banks[l.bank].start, l.pos) % Pow2(l.order) == 0
            && Shaped(r.banks[i]) && r.banks[i].free == Clear(r.banks[i].bits[..r.banks[i].frames])
            && (r.banks[i].bits[f] <==> exists n :: n in r.live && Covers(n, i, f))
  {
    hide Clear;
    RunKeepsInv(states, events, k);
    var r := states[k];
    assert LiveOk(r.banks, l) && BankOk(r.banks[i]) && Owned(r, i, f);
    if n :| n in r.live && Covers(n, i, f) {
      assert LiveOk(r.banks, n);
    }
  }

  /** When everything has been given back, every frame is free again. */
  lemma NothingIsLost(states: seq<Ram>, events: seq<Event>, k: nat, i: nat)
    requires SafeRun(states, events) && k < |states| && states[k].live == {} && i < |states[k].banks|
    ensures states[k].banks[i].free == states[k].banks[i].frames
  {
    hide Clear;
    RunKeepsInv(states, events, k);
    var b := states[k].banks[i];
    assert BankOk(b);
    forall f | 0 <= f < b.frames ensures !b.bits[f] {
      assert Owned(states[k], i, f);
    }
    ClearConstant(b.bits[..b.frames], false);
  }
}
