/**
  Guests whose memory comes from the frame allocator: no two of their slots share a byte, so what is written to
  guest memory is read back, and nothing else changes.
 */
module GuestRam {
  import Bits
  import opened IntervalTree
  import opened GuestMapping
  import opened GuestAspace
  import opened GuestMemory
  import opened FrameBits
  import opened HostRamSpec
  import opened HostRamRuns
  import opened HostRam
  import opened RegionRam

  /** The guest's regions, the banks and live runs of the host, and the run that each slot of real memory holds. */
  datatype GuestState = GuestState(regions: set<Range>, ram: Ram, runs: map<(Range, nat), Live>)

  /** The slots of real memory. */
  ghost predicate IsSlot(s: set<Range>, x: Range, i: nat) {
    x in s && RealMemory(x) && i < |x.data.maps|
  }

  /** The slot holds this run. */
  ghost predicate HoldsRun(banks: seq<RamBank>, x: Range, i: nat, l: Live)
    requires GuestMapping.Mapped(x) && i < |x.data.maps|
  {
    RunOf(banks, l, x.data.maps[i], SizeOfSlot(x, i))
  }

  /** Every slot of real memory holds a live run of its own. */
  ghost predicate Owns(s: set<Range>, banks: seq<RamBank>, live: set<Live>, runs: map<(Range, nat), Live>)
    requires Sound(s)
  {
    && (forall x, i: nat {:trigger (x, i) in runs} :: (x, i) in runs <==> IsSlot(s, x, i))
    && (forall x, i: nat {:trigger runs[(x, i)]} | (x, i) in runs ::
          IsSlot(s, x, i) && runs[(x, i)] in live && HoldsRun(banks, x, i, runs[(x, i)]))
    && (forall p, q | p in runs && q in runs && p != q :: runs[p] != runs[q])
  }

  /** The frames of every run reach to the last byte of its slot. */
  ghost predicate WholeSlots(s: set<Range>, banks: seq<RamBank>, runs: map<(Range, nat), Live>)
    requires Sound(s)
  {
    forall x, i: nat {:trigger runs[(x, i)]} | (x, i) in runs && IsSlot(s, x, i) ::
      RunIsWhole(banks, runs[(x, i)], x.data.maps[i], SizeOfSlot(x, i))
  }

  ghost predicate GuestInv(banks: seq<RamBank>, g: GuestState) {
    && Sound(g.regions) && BanksApart(banks) && AboutBanks(banks, g.ram) && Inv(g.ram) && AllPadded(g.ram)
    && Owns(g.regions, banks, g.ram.live, g.runs)
  }

  /** Slots that hold different runs have no byte in common, if the runs reach to their ends. */
  lemma BackedIsOwn(s: set<Range>, banks: seq<RamBank>, r: Ram, runs: map<(Range, nat), Live>)
    requires Sound(s) && Inv(r) && BanksApart(banks) && Owns(s, banks, r.live, runs) && WholeSlots(s, banks, runs)
    ensures OwnFrames(s)
  {
    hide BanksApart, RunOf, RunIsWhole, SlotSize, BankOk, LiveOk, Owned;
    forall x, y, i, j | && x in s && y in s && RealMemory(x) && RealMemory(y)
                        && 0 <= i < |x.data.maps| && 0 <= j < |y.data.maps| && (x != y || i != j)
      ensures SlotsApart(x, i, y, j)
    {
      var p, q := (x, i), (y, j);
      assert p in runs && q in runs && p != q;
      assert HoldsRun(banks, x, i, runs[(x, i)]) && HoldsRun(banks, y, j, runs[(y, j)]);
      assert HostRamRuns.Disjoint(runs[p], runs[q]);
      RunsShareNoByte(banks, runs[p], x.data.maps[i], SizeOfSlot(x, i), runs[q], y.data.maps[j], SizeOfSlot(y, j));
    }
  }

  // -------------------------------------------------------- adding and deleting

  /** The runs of the slots of a new region. */
  ghost function RunsOf(x: Range, rs: seq<Live>): map<(Range, nat), Live> {
    map i: nat | i < |rs| :: (x, i) := rs[i]
  }

  /** The runs that the slots of a region hold. */
  ghost function RunsAt(runs: map<(Range, nat), Live>, x: Range): (rs: seq<Live>)
    requires forall i: nat | i < |x.data.maps| :: (x, i) in runs
    ensures |rs| == |x.data.maps| && forall i | 0 <= i < |rs| :: rs[i] == runs[(x, i)]
  {
    seq(|x.data.maps|, i requires 0 <= i < |x.data.maps| => runs[(x, i)])
  }

  ghost function SlotsOf(x: Range): set<(Range, nat)> {
    set i: nat | i < |x.data.maps| :: (x, i)
  }

  datatype Change =
    | Add(kind: Kind, x: Range, y: Range, rs: seq<Live>)
    | Fail(kind: Kind, x: Range, y: Range, rs: seq<Live>)
    | Delete(x: Range)

  ghost predicate Unobstructed(s: set<Range>, x: Range) {
    forall z | z in s :: !z.Meets(x.lo, x.hi)
  }

  /** The first slots of `x` are served, one after the other; `y` is the region with their host addresses. */
  ghost predicate Serving(banks: seq<RamBank>, r: Ram, kind: Kind, x: Range, y: Range, rs: seq<Live>) {
    && Configured(kind, x) && RealMemory(x) && AboutBanks(banks, r)
    && y == x.(data := x.data.(maps := y.data.maps)) && |y.data.maps| == |x.data.maps|
    && Chain(banks, r, kind, SlotSizes(x), x.data.maps, y.data.maps, rs)
  }

  /**
    One call.  A region is added with the runs its slots were served with; if a slot cannot be served, those before
    it are released again; a region that is deleted releases all its slots.
   */
  ghost predicate ChangeOf(banks: seq<RamBank>, g: GuestState, e: Change, g': GuestState) {
    match e
    case Add(kind, x, y, rs) =>
      && Unobstructed(g.regions, x) && Serving(banks, g.ram, kind, x, y, rs) && |rs| == |x.data.maps|
      && g' == GuestState(g.regions + {y}, TakenAll(g.ram, rs), g.runs + RunsOf(y, rs))
    case Fail(kind, x, y, rs) =>
      || (!Unobstructed(g.regions, x) && g' == g)
      || (&& Unobstructed(g.regions, x) && Serving(banks, g.ram, kind, x, y, rs)
          && Stuck(banks, g.ram, kind, SlotSizes(x), x.data.maps, rs)
          && g' == g.(ram := Released(TakenAll(g.ram, rs), SlotSizes(x), rs, |SlotSizes(x)|)))
    case Delete(x) =>
      && x in g.regions && Mapped(x) && RealMemory(x) && (forall i: nat | i < |x.data.maps| :: (x, i) in g.runs)
      && g' == GuestState(g.regions - {x},
                          Released(g.ram, SlotSizes(x), RunsAt(g.runs, x), |SlotSizes(x)|),
                          g.runs - SlotsOf(x))
  }

  lemma SameSlots(kind: Kind, x: Range, y: Range)
    requires Configured(kind, x) && y == x.(data := x.data.(maps := y.data.maps)) && |y.data.maps| == |x.data.maps|
    ensures Configured(kind, y) && SlotSizes(y) == SlotSizes(x) && (RealMemory(x) ==> RealMemory(y))
  {
    forall i | 0 <= i < |x.data.maps| ensures SizeOfSlot(y, i) == SizeOfSlot(x, i) {
      assert SlotSize(y, i) == SlotSize(x, i);
    }
    assert SlotSizes(y) == SlotSizes(x);
  }

  /** Served slots hold their runs. */
  lemma ServingHolds(banks: seq<RamBank>, r: Ram, kind: Kind, x: Range, y: Range, rs: seq<Live>)
    requires Inv(r) && AllPadded(r) && BanksApart(banks) && Serving(banks, r, kind, x, y, rs)
    ensures var q := TakenAll(r, rs);
            && AboutBanks(banks, q) && Inv(q) && AllPadded(q)
            && Configured(kind, y) && SlotSizes(y) == SlotSizes(x)
            && Holding(banks, r.live, q, kind, SlotSizes(y), y.data.maps, rs, |rs|)
  {
    hide Inv, AllPadded, BanksApart, AboutBanks, Holding, Chain, Configured;
    ConfiguredIsMapped(kind, x);
    ConservedExactly(kind, x);
    SameSlots(kind, x, y);
    ChainHolds(banks, r, kind, SlotSizes(x), x.data.maps, y.data.maps, rs);
  }

  lemma InsertKeepsSound(s: set<Range>, x: Range, y: Range)
    requires Sound(s) && Unobstructed(s, x) && Mapped(y) && y.lo == x.lo && y.hi == x.hi
    ensures Sound(s + {y}) && y !in s
  {
    assert y in s ==> !y.Meets(x.lo, x.hi);
  }

  lemma NewSlot(banks: seq<RamBank>, live: set<Live>, kind: Kind, r: Ram, y: Range, rs: seq<Live>, i: nat)
    requires Configured(kind, y) && Holding(banks, live, r, kind, SlotSizes(y), y.data.maps, rs, |rs|) && i < |rs|
    ensures rs[i] in r.live && rs[i] !in live && HoldsRun(banks, y, i, rs[i])
  {
    hide RunOf, RunIsWhole, SlotSize;
    assert SlotHolds(banks, kind, SlotSizes(y)[i], y.data.maps[i], rs[i]);
    assert rs[i] in Runs(rs);
  }

  /** Distinct runs for new slots, none of which was live before, keep the runs distinct. */
  lemma RunsStayDistinct(live: set<Live>, runs: map<(Range, nat), Live>, y: Range, rs: seq<Live>, p: (Range, nat), q: (Range, nat))
    requires forall k | k in runs :: runs[k] in live
    requires forall k, m | k in runs && m in runs && k != m :: runs[k] != runs[m]
    requires (forall i, j | 0 <= i < j < |rs| :: rs[i] != rs[j]) && (forall i | 0 <= i < |rs| :: rs[i] !in live)
    requires p in runs + RunsOf(y, rs) && q in runs + RunsOf(y, rs) && p != q
    ensures (runs + RunsOf(y, rs))[p] != (runs + RunsOf(y, rs))[q]
  {
    var new_ := RunsOf(y, rs);
    assert p in new_ ==> p == (y, p.1) && new_[p] == rs[p.1];
    assert q in new_ ==> q == (y, q.1) && new_[q] == rs[q.1];
  }

  lemma AddKeepsOwns(banks: seq<RamBank>, s: set<Range>, live: set<Live>, runs: map<(Range, nat), Live>, kind: Kind, r: Ram,
                     y: Range, rs: seq<Live>)
    requires Sound(s) && Sound(s + {y}) && y !in s && RealMemory(y) && |rs| == |y.data.maps| && Owns(s, banks, live, runs)
    requires Configured(kind, y) && Holding(banks, live, r, kind, SlotSizes(y), y.data.maps, rs, |rs|)
    ensures Owns(s + {y}, banks, r.live, runs + RunsOf(y, rs))
  {
    hide RunOf, RunIsWhole, SlotSize, SlotHolds, Configured, RealMemory;
    var all, t := runs + RunsOf(y, rs), s + {y};
    forall i | 0 <= i < |rs| ensures rs[i] in r.live && rs[i] !in live && HoldsRun(banks, y, i, rs[i]) {
      NewSlot(banks, live, kind, r, y, rs, i);
    }
    forall p | p in runs ensures runs[p] in live {
      assert (p.0, p.1) in runs && runs[(p.0, p.1)] in live;
    }
    forall p, q | p in all && q in all && p != q ensures all[p] != all[q] {
      RunsStayDistinct(live, runs, y, rs, p, q);
    }
    forall x, i: nat ensures (x, i) in all <==> IsSlot(t, x, i) {
      assert (x, i) in runs <==> IsSlot(s, x, i);
    }
    forall x, i: nat | (x, i) in all ensures IsSlot(t, x, i) && all[(x, i)] in r.live && HoldsRun(banks, x, i, all[(x, i)]) {
      assert x != y ==> (x, i) in runs && runs[(x, i)] in live && HoldsRun(banks, x, i, runs[(x, i)]);
    }
  }

  /** More live runs than the slots hold do no harm. */
  lemma MoreLiveKeepsOwns(banks: seq<RamBank>, s: set<Range>, live: set<Live>, more: set<Live>, runs: map<(Range, nat), Live>)
    requires Sound(s) && Owns(s, banks, live, runs) && live <= more
    ensures Owns(s, banks, more, runs)
  {
  }

  /** The runs of one region, apart from all others that are live. */
  lemma RegionRuns(banks: seq<RamBank>, g: GuestState, x: Range)
    requires GuestInv(banks, g) && x in g.regions && RealMemory(x)
    ensures Mapped(x) && forall i: nat | i < |x.data.maps| :: (x, i) in g.runs
    ensures var rs := RunsAt(g.runs, x);
            HoldsRuns(banks, g.ram.live - Runs(rs), g.ram, SlotSizes(x), x.data.maps, rs)
  {
    hide BanksApart, AboutBanks, Inv, AllPadded, RunOf, Mapped, RealMemory;
    forall i: nat | i < |x.data.maps| ensures (x, i) in g.runs && g.runs[(x, i)] in g.ram.live && HoldsRun(banks, x, i, g.runs[(x, i)]) {
      assert IsSlot(g.regions, x, i);
    }
    var rs := RunsAt(g.runs, x);
    forall i | 0 <= i < |rs| ensures rs[i] in g.ram.live && RunOf(banks, rs[i], x.data.maps[i], SlotSizes(x)[i]) {
      assert HoldsRun(banks, x, i, g.runs[(x, i)]);
    }
    forall i, j | 0 <= i < j < |rs| ensures rs[i] != rs[j] {
      assert (x, i) != (x, j);
    }
  }

  lemma DeleteKeepsOwns(banks: seq<RamBank>, g: GuestState, x: Range, live: set<Live>)
    requires GuestInv(banks, g) && x in g.regions && RealMemory(x) && (forall i: nat | i < |x.data.maps| :: (x, i) in g.runs)
    requires g.ram.live - Runs(RunsAt(g.runs, x)) <= live
    ensures Sound(g.regions - {x}) && Owns(g.regions - {x}, banks, live, g.runs - SlotsOf(x))
  {
    hide BanksApart, AboutBanks, Inv, AllPadded, RunOf, Mapped, RealMemory;
    var runs, s, t, rs := g.runs - SlotsOf(x), g.regions, g.regions - {x}, RunsAt(g.runs, x);
    forall y, i: nat ensures (y, i) in runs <==> IsSlot(t, y, i) {
      assert (y, i) in g.runs <==> IsSlot(s, y, i);
    }
    forall y, i: nat | (y, i) in runs ensures IsSlot(t, y, i) && runs[(y, i)] in live && HoldsRun(banks, y, i, runs[(y, i)]) {
      var l := g.runs[(y, i)];
      assert l in g.ram.live && HoldsRun(banks, y, i, l);
      forall k | 0 <= k < |rs| ensures rs[k] != l {
        assert (x, k) != (y, i);
      }
    }
  }

  /** Every call keeps the slots of the guest in possession of runs of their own. */
  lemma ChangeKeepsInv(banks: seq<RamBank>, g: GuestState, e: Change, g': GuestState)
    requires GuestInv(banks, g) && ChangeOf(banks, g, e, g')
    ensures GuestInv(banks, g')
  {
    hide BanksApart, AboutBanks, Inv, AllPadded, Owns, Sound, Holding, HoldsRuns, Chain, Configured, Mapped, RealMemory, TakenAll, Released, Unobstructed;
    match e
    case Add(kind, x, y, rs) =>
      AddKeepsInv(banks, g, kind, x, y, rs);
    case Fail(kind, x, y, rs) =>
      if g' != g {
        FailKeepsInv(banks, g, kind, x, y, rs);
      }
    case Delete(x) =>
      DeleteKeepsInv(banks, g, x);
  }

  lemma AddKeepsInv(banks: seq<RamBank>, g: GuestState, kind: Kind, x: Range, y: Range, rs: seq<Live>)
    requires GuestInv(banks, g) && Unobstructed(g.regions, x) && Serving(banks, g.ram, kind, x, y, rs) && |rs| == |x.data.maps|
    ensures GuestInv(banks, GuestState(g.regions + {y}, TakenAll(g.ram, rs), g.runs + RunsOf(y, rs)))
  {
    hide BanksApart, AboutBanks, Inv, AllPadded, Owns, Sound, Holding, Chain, Configured, Mapped, TakenAll, Unobstructed;
    ServingHolds(banks, g.ram, kind, x, y, rs);
    ConfiguredIsMapped(kind, y);
    InsertKeepsSound(g.regions, x, y);
    AddKeepsOwns(banks, g.regions, g.ram.live, g.runs, kind, TakenAll(g.ram, rs), y, rs);
  }

  lemma FailKeepsInv(banks: seq<RamBank>, g: GuestState, kind: Kind, x: Range, y: Range, rs: seq<Live>)
    requires GuestInv(banks, g) && Serving(banks, g.ram, kind, x, y, rs)
    ensures GuestInv(banks, g.(ram := Released(TakenAll(g.ram, rs), SlotSizes(x), rs, |SlotSizes(x)|)))
  {
    hide BanksApart, AboutBanks, Inv, AllPadded, Owns, Sound, Holding, HoldsRuns, Chain, Configured, TakenAll, Released, StillHeld;
    ConfiguredIsMapped(kind, x);
    ServingHolds(banks, g.ram, kind, x, y, rs);
    var q, sizes := TakenAll(g.ram, rs), SlotSizes(x);
    HoldingRuns(banks, g.ram.live, q, kind, sizes, y.data.maps, rs);
    ReleasedHolds(banks, g.ram.live, q, sizes, y.data.maps, rs, |sizes|);
    var p := Released(q, sizes, rs, |sizes|);
    LeftNone(banks, g.ram.live, p, sizes, y.data.maps, rs);
    AboutSame(banks, q, p);
    MoreLiveKeepsOwns(banks, g.regions, g.ram.live, p.live, g.runs);
  }

  lemma DeleteKeepsInv(banks: seq<RamBank>, g: GuestState, x: Range)
    requires GuestInv(banks, g) && x in g.regions && Mapped(x) && RealMemory(x)
    requires forall i: nat | i < |x.data.maps| :: (x, i) in g.runs
    ensures GuestInv(banks, GuestState(g.regions - {x}, Released(g.ram, SlotSizes(x), RunsAt(g.runs, x), |SlotSizes(x)|),
                                       g.runs - SlotsOf(x)))
  {
    hide BanksApart, AboutBanks, Inv, AllPadded, Owns, Sound, HoldsRuns, Released, StillHeld, Mapped, RealMemory;
    RegionRuns(banks, g, x);
    var rs, sizes := RunsAt(g.runs, x), SlotSizes(x);
    var live := g.ram.live - Runs(rs);
    ReleasedHolds(banks, live, g.ram, sizes, x.data.maps, rs, |sizes|);
    var p := Released(g.ram, sizes, rs, |sizes|);
    LeftNone(banks, live, p, sizes, x.data.maps, rs);
    AboutSame(banks, g.ram, p);
    DeleteKeepsOwns(banks, g, x, p.live);
  }

  /** Releasing the runs just taken restores the banks exactly if the slots are not smaller than the alignment. */
  lemma TakeThenRelease(banks: seq<RamBank>, r: Ram, kind: Kind, x: Range, y: Range, rs: seq<Live>)
    requires Inv(r) && AllPadded(r) && BanksApart(banks) && Serving(banks, r, kind, x, y, rs) && |rs| == |x.data.maps|
    ensures Mapped(y) && (Released(TakenAll(r, rs), SlotSizes(y), rs, |SlotSizes(y)|) == r <==> Suits(kind, x))
  {
    hide Inv, AllPadded, BanksApart, AboutBanks, Holding, HoldsRuns, Chain, Configured, TakenAll, Released, StillHeld, Exact, Lost, SameShape;
    ServingHolds(banks, r, kind, x, y, rs);
    ConfiguredIsMapped(kind, x);
    ConfiguredIsMapped(kind, y);
    ChainShape(banks, r, kind, x, y, rs);
    var q, sizes := TakenAll(r, rs), SlotSizes(y);
    HoldingRuns(banks, r.live, q, kind, sizes, y.data.maps, rs);
    ReleasedHolds(banks, r.live, q, sizes, y.data.maps, rs, |sizes|);
    var p := Released(q, sizes, rs, |sizes|);
    LeftNone(banks, r.live, p, sizes, y.data.maps, rs);
    ShapeTrans(r, q, p);
    RestoredExactly(r, p, Lost(sizes, rs, |sizes|));
    LostIfUnsuited(banks, kind, x, sizes, y.data.maps, rs);
  }

  lemma ChainShape(banks: seq<RamBank>, r: Ram, kind: Kind, x: Range, y: Range, rs: seq<Live>)
    requires Inv(r) && AllPadded(r) && BanksApart(banks) && Serving(banks, r, kind, x, y, rs)
    ensures SameShape(r, TakenAll(r, rs))
  {
    hide Inv, AllPadded, BanksApart, AboutBanks, Holding, Chain, Configured, SameShape;
    ConfiguredIsMapped(kind, x);
    ConservedExactly(kind, x);
    ChainHolds(banks, r, kind, SlotSizes(x), x.data.maps, y.data.maps, rs);
  }

  lemma LostIfUnsuited(banks: seq<RamBank>, kind: Kind, x: Range, sizes: seq<nat>, hphys: seq<nat>, rs: seq<Live>)
    requires Configured(kind, x) && sizes == SlotSizes(x) && |rs| == |sizes| == |hphys|
    requires forall i | 0 <= i < |rs| :: RunOf(banks, rs[i], hphys[i], sizes[i]) && rs[i].cnt == FramesFor(kind, sizes[i])
    ensures Lost(sizes, rs, |sizes|) == {} <==> Suits(kind, x)
  {
    hide RunOf, Configured, Suits, FramesFor, SizeToPage, Lost;
    ConservedExactly(kind, x);
    NothingLost(banks, sizes, hphys, rs, |sizes|);
    assert forall i | 0 <= i < |rs| :: Exact(kind, sizes[i]) <==> rs[i].cnt == SizeToPage(sizes[i]);
  }

  /** Adding a region and deleting it again leaves everything as it was exactly if its slots are not smaller than the alignment. */
  lemma AddThenDeleteIsIdentity(banks: seq<RamBank>, g: GuestState, kind: Kind, x: Range, y: Range, rs: seq<Live>,
                                g': GuestState, g'': GuestState)
    requires GuestInv(banks, g) && ChangeOf(banks, g, Add(kind, x, y, rs), g') && ChangeOf(banks, g', Delete(y), g'')
    ensures g''.regions == g.regions && g''.runs == g.runs && (g'' == g <==> Suits(kind, x))
  {
    hide Inv, AllPadded, BanksApart, AboutBanks, Owns, Sound, Chain, Configured, TakenAll, Released, Unobstructed, Mapped, Suits, RealMemory;
    ServingRegion(banks, g.ram, kind, x, y, rs);
    InsertKeepsSound(g.regions, x, y);
    TakeThenRelease(banks, g.ram, kind, x, y, rs);
    RunsOfNew(banks, g, y, rs);
  }

  lemma RunsOfNew(banks: seq<RamBank>, g: GuestState, y: Range, rs: seq<Live>)
    requires GuestInv(banks, g) && y !in g.regions && |rs| == |y.data.maps|
    ensures var all := g.runs + RunsOf(y, rs);
            && (forall i: nat | i < |y.data.maps| :: (y, i) in all)
            && RunsAt(all, y) == rs && all - SlotsOf(y) == g.runs && g.regions + {y} - {y} == g.regions
  {
    hide Inv, AllPadded, BanksApart, AboutBanks, Sound, HoldsRun, RealMemory;
    forall x, i: nat | (x, i) in g.runs ensures x != y {
      assert IsSlot(g.regions, x, i);
    }
    PutIn(g.runs, y, rs);
  }

  /** The runs of a region that had none are put in and taken out again. */
  lemma PutIn(runs: map<(Range, nat), Live>, y: Range, rs: seq<Live>)
    requires |rs| == |y.data.maps| && forall x, i: nat {:trigger (x, i) in runs} | (x, i) in runs :: x != y
    ensures var all := runs + RunsOf(y, rs);
            && (forall i: nat | i < |y.data.maps| :: (y, i) in all)
            && RunsAt(all, y) == rs && all - SlotsOf(y) == runs
  {
    var all := runs + RunsOf(y, rs);
    forall i: nat | i < |rs| ensures (y, i) in all && all[(y, i)] == rs[i] {
      assert (y, i) in RunsOf(y, rs);
    }
    assert RunsAt(all, y) == rs;
    forall p | p in runs ensures p !in SlotsOf(y) {
      assert (p.0, p.1) in runs;
    }
    assert RunsOf(y, rs).Keys == SlotsOf(y);
  }

  // ------------------------------------------------------------------ whole slots

  /** The slots of a reserved region that lie in a bank do not begin too far into their first frame. */
  ghost predicate ReservesWhole(banks: seq<RamBank>, x: Range)
    requires Mapped(x)
  {
    forall i, b {:trigger Holds(banks[b], x.data.maps[i], SizeOfSlot(x, i))} |
      0 <= i < |x.data.maps| && 0 <= b < |banks| && Holds(banks[b], x.data.maps[i], SizeOfSlot(x, i)) ::
      Whole(banks[b].start, x.data.maps[i], SizeOfSlot(x, i))
  }

  /** Page-aligned host addresses will do. */
  lemma AlignedReservesWhole(banks: seq<RamBank>, r: Ram, x: Range)
    requires AboutBanks(banks, r) && Inv(r) && Mapped(x) && forall i | 0 <= i < |x.data.maps| :: x.data.maps[i] % PAGE_SIZE == 0
    ensures ReservesWhole(banks, x)
  {
    hide SlotSize, Whole, Mapped;
    forall i, b | 0 <= i < |x.data.maps| && 0 <= b < |banks| && Holds(banks[b], x.data.maps[i], SizeOfSlot(x, i))
      ensures Whole(banks[b].start, x.data.maps[i], SizeOfSlot(x, i))
    {
      assert BankOk(r.banks[b]);
      AlignedIsWhole(banks[b].start, x.data.maps[i], SizeOfSlot(x, i));
    }
  }

  /** Only a reserved region can have slots whose runs do not reach to their ends. */
  ghost predicate WholeChange(banks: seq<RamBank>, e: Change) {
    e.Add? && e.kind.Reserved? ==> Mapped(e.x) && ReservesWhole(banks, e.x)
  }

  /** A new slot is whole, unless it is reserved and begins too far into its first frame. */
  lemma NewSlotIsWhole(banks: seq<RamBank>, live: set<Live>, kind: Kind, r: Ram, y: Range, rs: seq<Live>)
    requires BanksApart(banks) && Configured(kind, y) && |rs| == |y.data.maps|
    requires Holding(banks, live, r, kind, SlotSizes(y), y.data.maps, rs, |rs|)
    ensures Mapped(y)
    ensures (kind.Reserved? ==> ReservesWhole(banks, y)) <==>
            forall i | 0 <= i < |rs| :: RunIsWhole(banks, rs[i], y.data.maps[i], SizeOfSlot(y, i))
  {
    hide BanksApart, SlotSize, Configured, Whole;
    ConfiguredIsMapped(kind, y);
    forall i | 0 <= i < |rs|
      ensures kind.Reserved? || RunIsWhole(banks, rs[i], y.data.maps[i], SizeOfSlot(y, i))
      ensures rs[i].bank < |banks| && Holds(banks[rs[i].bank], y.data.maps[i], SizeOfSlot(y, i)) && SizeOfSlot(y, i) > 0
      ensures forall b | 0 <= b < |banks| && Holds(banks[b], y.data.maps[i], SizeOfSlot(y, i)) :: b == rs[i].bank
    {
      assert SlotHolds(banks, kind, SlotSizes(y)[i], y.data.maps[i], rs[i]);
      forall b | 0 <= b < |banks| && Holds(banks[b], y.data.maps[i], SizeOfSlot(y, i)) ensures b == rs[i].bank {
        SameHolder(banks, rs[i], y.data.maps[i], SizeOfSlot(y, i), b);
      }
    }
  }

  /** A call keeps all slots whole exactly if it does not reserve one that begins too far into its first frame. */
  lemma ChangeKeepsWhole(banks: seq<RamBank>, g: GuestState, e: Change, g': GuestState)
    requires GuestInv(banks, g) && WholeSlots(g.regions, banks, g.runs) && ChangeOf(banks, g, e, g')
    ensures Sound(g'.regions) && (WholeSlots(g'.regions, banks, g'.runs) <==> WholeChange(banks, e))
  {
    hide BanksApart, AboutBanks, Inv, AllPadded, Owns, Sound, Holding, HoldsRuns, Chain, Configured, Mapped, RealMemory, TakenAll,
      Released, Unobstructed, WholeSlots, ReservesWhole;
    ChangeKeepsInv(banks, g, e, g');
    match e
    case Add(kind, x, y, rs) =>
      AddWhole(banks, g, kind, x, y, rs);
    case Fail(kind, x, y, rs) =>
    case Delete(x) =>
      DeleteWhole(banks, g, x);
  }

  lemma AddWhole(banks: seq<RamBank>, g: GuestState, kind: Kind, x: Range, y: Range, rs: seq<Live>)
    requires GuestInv(banks, g) && WholeSlots(g.regions, banks, g.runs)
    requires Unobstructed(g.regions, x) && Serving(banks, g.ram, kind, x, y, rs) && |rs| == |x.data.maps| && Sound(g.regions + {y})
    ensures WholeSlots(g.regions + {y}, banks, g.runs + RunsOf(y, rs)) <==>
            (kind.Reserved? ==> Mapped(x) && ReservesWhole(banks, x))
  {
    hide BanksApart, AboutBanks, Inv, AllPadded, Sound, Holding, Chain, Configured, TakenAll, RunIsWhole, ReservesWhole, Unobstructed, HoldsRun;
    ServingHolds(banks, g.ram, kind, x, y, rs);
    ConfiguredIsMapped(kind, y);
    ConfiguredIsMapped(kind, x);
    InsertKeepsSound(g.regions, x, y);
    NewSlotIsWhole(banks, g.ram.live, kind, TakenAll(g.ram, rs), y, rs);
    if kind.Reserved? {
      ReservedKeepsAddresses(banks, g.ram, kind, x, y, rs);
    }
    var all, s, t := g.runs + RunsOf(y, rs), g.regions, g.regions + {y};
    forall z, i: nat | (z, i) in all ensures IsSlot(t, z, i) && all[(z, i)] == if z == y then rs[i] else g.runs[(z, i)] {
      assert (z, i) in g.runs ==> IsSlot(s, z, i);
      assert z == y ==> (z, i) in RunsOf(y, rs) && RunsOf(y, rs)[(z, i)] == rs[i];
    }
    forall i | 0 <= i < |rs| ensures (y, i) in all && all[(y, i)] == rs[i] {
      assert (y, i) in RunsOf(y, rs);
    }
  }

  /** A reserved region keeps the host addresses it was given. */
  lemma {:induction false} ReservedAddress(banks: seq<RamBank>, r: Ram, kind: Kind, sizes: seq<nat>, hphys0: seq<nat>, hphys: seq<nat>,
                                           rs: seq<Live>, i: nat)
    requires |r.banks| == |banks| && kind.Reserved? && Chain(banks, r, kind, sizes, hphys0, hphys, rs) && i < |rs|
    ensures |hphys0| == |hphys| && hphys[i] == hphys0[i]
  {
    ChainPrefix(banks, r, kind, sizes, hphys0, hphys, rs, i);
  }

  lemma ReservedKeepsAddresses(banks: seq<RamBank>, r: Ram, kind: Kind, x: Range, y: Range, rs: seq<Live>)
    requires kind.Reserved? && Serving(banks, r, kind, x, y, rs) && |rs| == |x.data.maps|
    ensures y == x
  {
    hide Chain, Configured;
    ConfiguredIsMapped(kind, x);
    forall i | 0 <= i < |rs| ensures y.data.maps[i] == x.data.maps[i] {
      ReservedAddress(banks, r, kind, SlotSizes(x), x.data.maps, y.data.maps, rs, i);
    }
    assert y.data.maps == x.data.maps;
  }

  lemma DeleteWhole(banks: seq<RamBank>, g: GuestState, x: Range)
    requires Sound(g.regions) && Sound(g.regions - {x}) && WholeSlots(g.regions, banks, g.runs)
    ensures WholeSlots(g.regions - {x}, banks, g.runs - SlotsOf(x))
  {
    hide Sound, RunIsWhole, Mapped, RealMemory;
  }

  // ------------------------------------------------------------------------ runs

  ghost predicate Run(banks: seq<RamBank>, states: seq<GuestState>, changes: seq<Change>) {
    && |states| == |changes| + 1 && GuestInv(banks, states[0])
    && forall i | 0 <= i < |changes| :: ChangeOf(banks, states[i], changes[i], states[i + 1])
  }

  /** A guest without regions, whatever else is live. */
  lemma EmptyGuest(banks: seq<RamBank>, r: Ram)
    requires BanksApart(banks) && AboutBanks(banks, r) && Inv(r) && AllPadded(r)
    ensures GuestInv(banks, GuestState({}, r, map[])) && WholeSlots({}, banks, map[])
  {
    hide Inv, AllPadded, BanksApart;
  }

  lemma {:induction false} RunKeepsInv(banks: seq<RamBank>, states: seq<GuestState>, changes: seq<Change>, k: nat)
    requires Run(banks, states, changes) && k < |states|
    ensures GuestInv(banks, states[k])
  {
    hide GuestInv, ChangeOf;
    if k > 0 {
      RunKeepsInv(banks, states, changes, k - 1);
      ChangeKeepsInv(banks, states[k - 1], changes[k - 1], states[k]);
    }
  }

  /**
    At every point of every run of adding and deleting regions, different guest addresses lead to different host
    bytes, as long as no region was reserved that begins too far into a frame.
   */
  lemma {:induction false} RunsStayInjective(banks: seq<RamBank>, states: seq<GuestState>, changes: seq<Change>, k: nat)
    requires Run(banks, states, changes) && k < |states|
    requires Sound(states[0].regions) && WholeSlots(states[0].regions, banks, states[0].runs)
    requires forall i | 0 <= i < k :: WholeChange(banks, changes[i])
    ensures Sound(states[k].regions) && WholeSlots(states[k].regions, banks, states[k].runs) && Injective(states[k].regions)
  {
    hide ChangeOf, WholeChange, Sound, WholeSlots, Injective, OwnFrames, Owns, BanksApart, Inv, AllPadded, AboutBanks;
    RunKeepsInv(banks, states, changes, k);
    if k > 0 {
      RunKeepsInv(banks, states, changes, k - 1);
      RunsStayInjective(banks, states, changes, k - 1);
      ChangeKeepsWhole(banks, states[k - 1], changes[k - 1], states[k]);
    }
    BackedIsOwn(states[k].regions, banks, states[k].ram, states[k].runs);
    OwnFramesAreInjective(states[k].regions);
  }

  // -------------------------------------------------------------------- operations

  /** Acquires the RAM of a region, exactly if every slot can be served; `y` has the host addresses of the slots. */
  method AcquireRegion(ram: HostRam, ghost r0: Ram, kind: Kind, x: Range)
    returns (ok: bool, y: Range, ghost rs: seq<Live>)
    requires Ready(ram, r0) && AboutBanks(ram.banks, r0) && Configured(kind, x) && RealMemory(x)
    modifies ram.banks, ram.Bitmaps()
    ensures Mapped(x) && |x.data.maps| > 0
    ensures ok <==> Fits(ram.banks, r0, kind, SlotSizes(x), x.data.maps)
    ensures Serving(ram.banks, r0, kind, x, y, rs)
    ensures if ok then |rs| == |x.data.maps| && Ready(ram, TakenAll(r0, rs))
            else && Stuck(ram.banks, r0, kind, SlotSizes(x), x.data.maps, rs)
                 && Ready(ram, Released(TakenAll(r0, rs), SlotSizes(x), rs, |SlotSizes(x)|))
    ensures !ok ==> (Matches(ram, r0) <==> Suits(kind, x) || !Served(ram.banks, r0.banks, kind, 0, x.data.maps[0], SlotSizes(x)[0]))
  {
    hide Inv, AllPadded, BanksApart, Holding, SameShape, Configured, Mapped, Exact, AllWellFormed, Chain, Fits, Stuck, Released,
      TakenAll, Served, Suits, RealMemory;
    assert Mapped(x) by { ConfiguredIsMapped(kind, x); }
    var n, sizes := |x.data.maps|, SlotSizes(x);
    var hphys := new nat[n](i requires 0 <= i < n => x.data.maps[i]);
    var held := new bool[n](_ => false);
    assert hphys[..] == x.data.maps;
    ConservedExactly(kind, x);
    ghost var r;
    ok, r, rs := AcquireAll(ram, r0, kind, sizes, hphys, held);
    FirstIsServed(ram.banks, r0, kind, sizes, x.data.maps, hphys[..], rs);
    assert rs != [] && !Suits(kind, x) ==> !Exact(kind, sizes[0]);
    y := x.(data := x.data.(maps := hphys[..]));
  }

  /**
    Adds a region of real memory to a guest: exactly if nothing overlaps it and every slot can be served.  Otherwise no
    region changes, and no bank does, exactly if something overlaps it, the slots are not smaller than the alignment, or
    not even the first of them can be served.
   */
  method AddRegion(aspace: Aspace, ram: HostRam, ghost g: GuestState, kind: Kind, x: Range)
    returns (ok: bool, y: Range, ghost e: Change, ghost g': GuestState)
    requires aspace.Valid() && g.regions == aspace.Regions(false) && Ready(ram, g.ram) && GuestInv(ram.banks, g)
    requires Configured(kind, x) && RealMemory(x) && Io !in x.data.flags
    modifies aspace, ram.banks, ram.Bitmaps()
    ensures Mapped(x) && |x.data.maps| > 0
    ensures ok <==> Unobstructed(g.regions, x) && Fits(ram.banks, g.ram, kind, SlotSizes(x), x.data.maps)
    ensures aspace.Valid() && g'.regions == aspace.Regions(false) && Ready(ram, g'.ram) && GuestInv(ram.banks, g')
    ensures ChangeOf(ram.banks, g, e, g')
    ensures if ok then e.Add? && e.kind == kind && e.x == x && e.y == y else e.Fail?
    ensures !ok ==> g'.regions == g.regions
                    && (Matches(ram, g.ram) <==>
                        || !Unobstructed(g.regions, x) || Suits(kind, x)
                        || !Served(ram.banks, g.ram.banks, kind, 0, x.data.maps[0], SlotSizes(x)[0]))
    ensures Acyclic(old(aspace.Regions(false))) ==> Acyclic(aspace.Regions(false))
    ensures aspace.Regions(true) == old(aspace.Regions(true))
  {
    hide GuestInv, ChangeOf, Ready, Matches, Mapped, RealMemory, Configured, Fits, Served, Suits, Released, TakenAll, Stuck, Serving, Acyclic;
    y, g', e := x, g, Fail(kind, x, x, []);
    GuestIsAbout(ram.banks, g);
    ConfiguredIsMapped(kind, x);
    ConservedExactly(kind, x);
    var clash := aspace.IsOverlapping(x);
    if clash.Some? {
      Refuse(ram, g, e);
      return false, y, e, g';
    }
    ghost var rs;
    ok, y, rs := AcquireRegion(ram, g.ram, kind, x);
    ServingRegion(ram.banks, g.ram, kind, x, y, rs);
    if !ok {
      e := Fail(kind, x, y, rs);
      g' := g.(ram := Released(TakenAll(g.ram, rs), SlotSizes(x), rs, |SlotSizes(x)|));
      ChangeFailed(ram.banks, g, kind, x, y, rs);
    } else {
      ok := aspace.InsertRegion(y);
      e := Add(kind, x, y, rs);
      g' := GuestState(g.regions + {y}, TakenAll(g.ram, rs), g.runs + RunsOf(y, rs));
      NewIsAcyclic(g.regions, y);
      ChangeAdded(ram.banks, g, kind, x, y, rs);
    }
    ChangeKeepsInv(ram.banks, g, e, g');
  }

  lemma GuestIsAbout(banks: seq<RamBank>, g: GuestState)
    requires GuestInv(banks, g)
    ensures AboutBanks(banks, g.ram)
  {
  }

  lemma Refuse(ram: HostRam, g: GuestState, e: Change)
    requires e.Fail? && !Unobstructed(g.regions, e.x) && Ready(ram, g.ram)
    ensures ChangeOf(ram.banks, g, e, g) && Matches(ram, g.ram)
  {
  }

  lemma ServingRegion(banks: seq<RamBank>, r: Ram, kind: Kind, x: Range, y: Range, rs: seq<Live>)
    requires Serving(banks, r, kind, x, y, rs)
    ensures Mapped(y) && RealMemory(y) && y == x.(data := x.data.(maps := y.data.maps))
  {
    SameSlots(kind, x, y);
  }

  lemma ChangeFailed(banks: seq<RamBank>, g: GuestState, kind: Kind, x: Range, y: Range, rs: seq<Live>)
    requires Mapped(x) && Unobstructed(g.regions, x) && AboutBanks(banks, g.ram) && Serving(banks, g.ram, kind, x, y, rs)
    requires Stuck(banks, g.ram, kind, SlotSizes(x), x.data.maps, rs)
    ensures ChangeOf(banks, g, Fail(kind, x, y, rs), g.(ram := Released(TakenAll(g.ram, rs), SlotSizes(x), rs, |SlotSizes(x)|)))
  {
  }

  lemma ChangeAdded(banks: seq<RamBank>, g: GuestState, kind: Kind, x: Range, y: Range, rs: seq<Live>)
    requires Unobstructed(g.regions, x) && Serving(banks, g.ram, kind, x, y, rs) && |rs| == |x.data.maps|
    ensures ChangeOf(banks, g, Add(kind, x, y, rs), GuestState(g.regions + {y}, TakenAll(g.ram, rs), g.runs + RunsOf(y, rs)))
  {
  }

  /** A region that is no alias closes no cycle of aliases. */
  lemma NewIsAcyclic(s: set<Range>, y: Range)
    requires RealMemory(y)
    ensures Acyclic(s) ==> Acyclic(s + {y})
  {
    if Acyclic(s) {
      var rank :| AliasRanked(s, rank);
      var more := map x | x in s + {y} :: if x == y then 0 else rank[x] + 1;
      assert AliasRanked(s + {y}, more);
    }
  }

  lemma FewerIsAcyclic(s: set<Range>, x: Range)
    ensures Acyclic(s) ==> Acyclic(s - {x})
  {
    if Acyclic(s) {
      var rank :| AliasRanked(s, rank);
      assert AliasRanked(s - {x}, rank - {x});
    }
  }

  /**
    Deletes a region of real memory and releases its slots.  The other slots keep their runs; all frames of the region
    are free again exactly if no slot had taken more of them than it gives back.
   */
  method DeleteRegion(aspace: Aspace, ram: HostRam, ghost g: GuestState, x: Range) returns (ghost g': GuestState)
    requires aspace.Valid() && g.regions == aspace.Regions(false) && Ready(ram, g.ram) && GuestInv(ram.banks, g)
    requires x in g.regions && RealMemory(x) && Io !in x.data.flags
    modifies aspace, ram.banks, ram.Bitmaps()
    ensures aspace.Valid() && g'.regions == aspace.Regions(false) && Ready(ram, g'.ram) && GuestInv(ram.banks, g')
    ensures ChangeOf(ram.banks, g, Delete(x), g')
    ensures g'.ram.live == g.ram.live - Runs(RunsAt(g.runs, x)) <==>
            forall i | 0 <= i < |x.data.maps| :: g.runs[(x, i)].cnt == SizeToPage(SizeOfSlot(x, i))
    ensures Acyclic(old(aspace.Regions(false))) ==> Acyclic(aspace.Regions(false))
    ensures aspace.Regions(true) == old(aspace.Regions(true))
  {
    hide Inv, AllPadded, BanksApart, AboutBanks, Owns, Sound, Mapped, RealMemory, Released, Acyclic, HoldsRuns, RunOf;
    RegionRuns(ram.banks, g, x);
    FewerIsAcyclic(g.regions, x);
    aspace.EraseRegion(x);
    ghost var rs := RunsAt(g.runs, x);
    var n, sizes := |x.data.maps|, SlotSizes(x);
    var held := new bool[n](_ => true);
    ghost var now := ReleaseSlots(ram, g.ram.live - Runs(rs), g.ram, sizes, x.data.maps, held, rs);
    g' := GuestState(g.regions - {x}, now, g.runs - SlotsOf(x));
    NothingLostOf(ram.banks, g, x);
    ChangeKeepsInv(ram.banks, g, Delete(x), g');
  }

  lemma NothingLostOf(banks: seq<RamBank>, g: GuestState, x: Range)
    requires GuestInv(banks, g) && x in g.regions && RealMemory(x) && Mapped(x)
    requires forall i: nat | i < |x.data.maps| :: (x, i) in g.runs
    ensures Lost(SlotSizes(x), RunsAt(g.runs, x), |SlotSizes(x)|) == {} <==>
            forall i | 0 <= i < |x.data.maps| :: g.runs[(x, i)].cnt == SizeToPage(SizeOfSlot(x, i))
  {
    hide Inv, AllPadded, BanksApart, AboutBanks, Owns, Sound, Mapped, RealMemory, Lost, RunOf;
    RegionRuns(banks, g, x);
    NothingLost(banks, SlotSizes(x), x.data.maps, RunsAt(g.runs, x), |SlotSizes(x)|);
  }

  /**
    Writes bytes and reads them back: up to the first address that is no real memory they are the same, and no
    other guest address has changed.
   */
  method WriteThenReadBack(guest: Guest, ram: HostRam, ghost g: GuestState, gphys: nat, src: seq<Byte>) returns (n: nat, dst: seq<Byte>)
    requires guest.Valid() && g.regions == guest.Regions() && GuestInv(ram.banks, g) && WholeSlots(g.regions, ram.banks, g.runs)
    modifies guest.host
    ensures n <= |src| && (n == |src| || !GuestMemory.Backed(guest.Regions(), gphys + n))
    ensures dst == src[..n]
    ensures forall a: nat | GuestMemory.Backed(guest.Regions(), a) && !(gphys <= a < gphys + n) ::
              ByteAt(guest.host.mem, guest.Regions(), a) == ByteAt(old(guest.host.mem), guest.Regions(), a)
  {
    hide Inv, AllPadded, AboutBanks, Owns, WholeSlots, BanksApart, Sound, GuestMemory.Backed, HostAddr, OwnFrames, Injective, ByteWrites;
    ghost var s := guest.Regions();
    BackedIsOwn(s, ram.banks, g.ram, g.runs);
    OwnFramesAreInjective(s);
    n := guest.Write(gphys, src);
    dst := guest.Read(gphys, n);
    assert |dst| == n;
    forall a: nat | GuestMemory.Backed(s, a)
      ensures ByteAt(guest.host.mem, s, a) == if gphys <= a < gphys + n then src[a - gphys] else ByteAt(old(guest.host.mem), s, a)
    {
      WriteThenRead(old(guest.host.mem), s, gphys, src[..n], a);
    }
    assert dst == src[..n] by {
      forall i | 0 <= i < n ensures dst[i] == src[i] {
        assert gphys <= gphys + i < gphys + n;
        assert dst[gphys + i - gphys] == ByteAt(guest.host.mem, s, gphys + i);
      }
    }
  }

  function OneSlot(lo: nat, pa: nat): Range {
    Item(lo, lo + 0x1000, Region({Real, Memory}, lo, 12, [pa]))
  }

  /** A page of memory in one slot: every byte of it lies at the same distance from the start of the slot. */
  lemma OneSlotMaps(s: set<Range>, lo: nat, pa: nat, k: nat)
    requires k < 0x1000 && OneSlot(lo, pa) in s && GuestAspace.Disjoint(s)
    ensures Mapped(OneSlot(lo, pa)) && GuestMemory.Backed(s, lo + k) && HostAddr(s, lo + k) == pa + k
  {
    hide Bits.Pow2;
    OrdersAre();
    var x := OneSlot(lo, pa);
    assert SlotOf(x, lo + k) == 0;
    assert RealAt(s, lo + k, x);
  }

  /**
    A guest with two reserved regions whose host addresses are not page aligned in the first one: the allocator
    gives them different frames, but two guest addresses lead to the same host address.
   */
  lemma UnalignedGuestShares(frames: nat)
    requires frames >= 2
    ensures var s, b, cnt := {OneSlot(0, 0x800), OneSlot(0x1000, 0x1000)}, FreshBank(0, frames), SizeToPage(0x1000);
            && RunFree(b.bits, FrameOf(0, 0x800), cnt)
            && RunFree(Taken(b, FrameOf(0, 0x800), cnt).bits, FrameOf(0, 0x1000), cnt)
            && Sound(s) && !Injective(s)
  {
    hide GuestMemory.Backed, HostAddr, Mapped, Bits.Pow2;
    var s := {OneSlot(0, 0x800), OneSlot(0x1000, 0x1000)};
    ReservesOverlap(frames);
    OneSlotMaps(s, 0, 0x800, 0x800);
    OneSlotMaps(s, 0x1000, 0x1000, 0);
  }
}
