/**
  The host RAM behind a guest region: adding a region acquires a run of frames for each of its slots, and gives
  them back when that fails half-way or when the region is deleted.
 */
module RegionRam {
  import opened Bits
  import opened Alignment
  import opened FrameBits
  import opened HostRamSpec
  import opened HostRamRuns
  import opened HostRam
  import opened GuestMapping
  import opened IntervalTree

  datatype Kind =
    | Reserved
    | Alloced(order: nat)
    | Colored(first: nat, num: nat, colors: nat, order: nat, matches: (nat, nat, nat) -> bool)

  /** How many frames are taken for a slot of this size. */
  function FramesFor(kind: Kind, sz: nat): nat {
    match kind
    case Reserved => SizeToPage(sz)
    case Alloced(order) => SizeToPage(RoundUp(sz, order))
    case Colored(_, _, _, order, _) => SizeToPage(Pow2(order))
  }

  /** As many frames are taken for a slot of this size as are given back for it. */
  predicate Exact(kind: Kind, sz: nat) {
    FramesFor(kind, sz) == SizeToPage(sz)
  }

  /** A block of the colour policy is large enough for the slot. */
  predicate WellFormed(kind: Kind, sz: nat) {
    sz > 0 && (kind.Colored? ==> kind.num > 0 && PAGE_SHIFT <= kind.order < BITS_PER_LONG && sz <= Pow2(kind.order))
  }

  lemma EnoughFrames(kind: Kind, sz: nat)
    requires WellFormed(kind, sz)
    ensures 0 < SizeToPage(sz) <= FramesFor(kind, sz)
  {
    hide Pow2;
  }

  /** `r` is what the banks hold. */
  ghost predicate Matches(ram: HostRam, r: Ram)
    reads ram, ram.banks, ram.Bitmaps()
  {
    ram.Values() == r.banks
  }

  /** No address lies in two banks. */
  ghost predicate BanksApart(banks: seq<RamBank>) {
    forall i, j | 0 <= i < j < |banks| ::
      || banks[i].start + banks[i].frames * PAGE_SIZE <= banks[j].start
      || banks[j].start + banks[j].frames * PAGE_SIZE <= banks[i].start
  }

  ghost predicate Ready(ram: HostRam, r: Ram)
    reads ram, ram.banks, ram.Bitmaps()
  {
    ram.Valid() && Matches(ram, r) && Inv(r) && AllPadded(r) && BanksApart(ram.banks)
  }

  /** The run begins with the frames that the code finds for this range when it gives it back. */
  ghost predicate RunOf(banks: seq<RamBank>, l: Live, pa: nat, sz: nat) {
    && l.bank < |banks| && Holds(banks[l.bank], pa, sz) && (forall i | 0 <= i < l.bank :: !Holds(banks[i], pa, sz))
    && l.pos == FrameOf(banks[l.bank].start, pa) && 0 < SizeToPage(sz) <= l.cnt
  }

  /** The frames of the run reach to the last byte of the range. */
  ghost predicate RunIsWhole(banks: seq<RamBank>, l: Live, pa: nat, sz: nat) {
    l.bank < |banks| && banks[l.bank].start <= pa && Whole(banks[l.bank].start, pa, sz)
  }

  /** Ranges whose frames belong to different live runs have no byte in common, if both are whole. */
  lemma RunsShareNoByte(banks: seq<RamBank>, l: Live, pa: nat, sz: nat, m: Live, pb: nat, sy: nat)
    requires BanksApart(banks) && RunOf(banks, l, pa, sz) && RunOf(banks, m, pb, sy) && HostRamRuns.Disjoint(l, m)
    requires RunIsWhole(banks, l, pa, sz) && RunIsWhole(banks, m, pb, sy)
    ensures pa + sz <= pb || pb + sy <= pa
  {
    if l.bank == m.bank {
      if l.pos + l.cnt <= m.pos {
        EndsBefore(banks[l.bank].start, pa, sz, l.pos, l.cnt, m.pos, pb);
      } else {
        EndsBefore(banks[l.bank].start, pb, sy, m.pos, m.cnt, l.pos, pa);
      }
    }
  }

  lemma EndsBefore(start: nat, pa: nat, sz: nat, pos: nat, cnt: nat, next: nat, pb: nat)
    requires start <= pa && start <= pb && pos == FrameOf(start, pa) && next == FrameOf(start, pb)
    requires SizeToPage(sz) <= cnt && pos + cnt <= next && Whole(start, pa, sz)
    ensures pa + sz <= pb
  {
  }

  lemma OnlyHolder(banks: seq<RamBank>, b: nat, pa: nat, sz: nat, i: nat)
    requires BanksApart(banks) && b < |banks| && i < |banks| && i != b && Holds(banks[b], pa, sz) && sz > 0
    ensures !Holds(banks[i], pa, sz)
  {
  }

  lemma RunIsFound(banks: seq<RamBank>, b: nat, pos: nat, cnt: nat, order: nat, sz: nat)
    requires BanksApart(banks) && b < |banks| && sz > 0 && SizeToPage(sz) <= cnt && pos + cnt <= banks[b].frames
    ensures RunOf(banks, Live(b, pos, cnt, order), Address(banks[b].start, pos), sz)
    ensures RunIsWhole(banks, Live(b, pos, cnt, order), Address(banks[b].start, pos), sz)
  {
    var pa := Address(banks[b].start, pos);
    assert sz <= SizeToPage(sz) * PAGE_SIZE;
    assert pos * PAGE_SIZE + SizeToPage(sz) * PAGE_SIZE == (pos + SizeToPage(sz)) * PAGE_SIZE <= banks[b].frames * PAGE_SIZE;
    assert Holds(banks[b], pa, sz);
    forall i | 0 <= i < b ensures !Holds(banks[i], pa, sz) {
      OnlyHolder(banks, b, pa, sz, i);
    }
    assert pa - banks[b].start == PAGE_SIZE * pos;
    MulMod(pos, PAGE_SIZE);
  }

  /** With the same live runs, and the bits past the ends set, the bitmaps are the same. */
  lemma LiveDeterminesBank(r: Ram, q: Ram, i: nat)
    requires Inv(r) && AllPadded(r) && Inv(q) && AllPadded(q) && r.live == q.live && i < |r.banks| == |q.banks|
    requires r.banks[i].start == q.banks[i].start && r.banks[i].frames == q.banks[i].frames && |r.banks[i].bits| == |q.banks[i].bits|
    ensures r.banks[i] == q.banks[i]
  {
    hide Clear;
    var b, c := r.banks[i], q.banks[i];
    assert BankOk(b) && BankOk(c);
    forall f | 0 <= f < |b.bits| ensures b.bits[f] == c.bits[f] {
      BitIsLive(r, i, f);
      BitIsLive(q, i, f);
    }
    assert b.bits == c.bits;
  }

  lemma BitIsLive(r: Ram, i: nat, f: nat)
    requires Inv(r) && AllPadded(r) && i < |r.banks| && f < |r.banks[i].bits|
    ensures r.banks[i].bits[f] <==> f >= r.banks[i].frames || exists l :: l in r.live && Covers(l, i, f)
  {
    assert BankOk(r.banks[i]) && Owned(r, i, f);
    if l :| l in r.live && Covers(l, i, f) {
      assert LiveOk(r.banks, l);
    }
  }

  // ------------------------------------------------------------- one slot

  ghost predicate FirstHolder(banks: seq<RamBank>, b: nat, pa: nat, sz: nat) {
    b < |banks| && Holds(banks[b], pa, sz) && forall i | 0 <= i < b :: !Holds(banks[i], pa, sz)
  }

  /** Slot `i` can be served: the frames it asks for are free, or some bank offers a run. */
  ghost predicate Served(banks: seq<RamBank>, v: seq<Bank>, kind: Kind, i: nat, pa: nat, sz: nat)
    requires |v| == |banks|
  {
    match kind
    case Reserved => exists b | 0 <= b < |banks| :: FirstHolder(banks, b, pa, sz) && ReservedFree(banks, v, b, pa, sz)
    case Alloced(order) =>
      PAGE_SHIFT <= order < BITS_PER_LONG && exists b | 0 <= b < |v| :: Offers(v[b], order, FramesFor(kind, sz), Any)
    case Colored(first, num, colors, order, matches) =>
      && num > 0 && first + i % num < colors
      && exists b | 0 <= b < |v| :: Offers(v[b], order, FramesFor(kind, sz), OfColor(matches, order, first + i % num))
  }

  ghost predicate ReservedFree(banks: seq<RamBank>, v: seq<Bank>, b: nat, pa: nat, sz: nat)
    requires b < |v| == |banks|
  {
    && Holds(banks[b], pa, sz) && SizeToPage(sz) <= v[b].free
    && RunFree(v[b].bits, FrameOf(banks[b].start, pa), SizeToPage(sz))
  }

  /** Slot `i` is served with the run `l`, which lies at `pa`. */
  ghost predicate Takes(banks: seq<RamBank>, v: seq<Bank>, kind: Kind, i: nat, pa0: nat, sz: nat, l: Live, pa: nat)
    requires |v| == |banks|
  {
    && l.bank < |banks| && l.cnt == FramesFor(kind, sz)
    && match kind
       case Reserved =>
         && pa == pa0 && l.order == PAGE_SHIFT && FirstHolder(banks, l.bank, pa, sz) && ReservedFree(banks, v, l.bank, pa, sz)
         && l.pos == FrameOf(banks[l.bank].start, pa)
       case Alloced(order) =>
         && PAGE_SHIFT <= order < BITS_PER_LONG && l.order == order
         && FirstOffer(v, order, l.cnt, Any, l.bank, l.pos) && pa == Address(banks[l.bank].start, l.pos)
       case Colored(first, num, colors, order, matches) =>
         && num > 0 && first + i % num < colors && l.order == order
         && FirstOffer(v, order, l.cnt, OfColor(matches, order, first + i % num), l.bank, l.pos)
         && pa == Address(banks[l.bank].start, l.pos)
  }

  lemma TakesIsServed(banks: seq<RamBank>, v: seq<Bank>, kind: Kind, i: nat, pa0: nat, sz: nat, l: Live, pa: nat)
    requires |v| == |banks| && Takes(banks, v, kind, i, pa0, sz, l, pa)
    ensures Served(banks, v, kind, i, pa0, sz)
  {
    hide Offers, FirstFit, RunFree, Holds, Pow2;
  }

  /** What a slot was promised: its own address, an aligned one, or a block of its colour; the colours take turns. */
  predicate Promised(kind: Kind, i: nat, pa0: nat, pa: nat) {
    match kind
    case Reserved => pa == pa0
    case Alloced(order) => pa % Pow2(order) == 0
    case Colored(first, num, colors, order, matches) =>
      num > 0 && pa % Pow2(order) == 0 && matches(pa, Pow2(order), first + i % num)
  }

  lemma TakesAsPromised(banks: seq<RamBank>, v: seq<Bank>, kind: Kind, i: nat, pa0: nat, sz: nat, l: Live, pa: nat)
    requires |v| == |banks| && Takes(banks, v, kind, i, pa0, sz, l, pa) && l.bank < |banks| && banks[l.bank].start == v[l.bank].start
    ensures Promised(kind, i, pa0, pa)
  {
    hide Offers, RunFree, Holds, Pow2;
    match kind
    case Reserved =>
    case Alloced(order) =>
      FirstFitSuits(v[l.bank], order, l.cnt, Any, l.pos);
    case Colored(first, num, colors, order, matches) =>
      FirstFitSuits(v[l.bank], order, l.cnt, OfColor(matches, order, first + i % num), l.pos);
  }

  /** The state of the banks determines the run. */
  lemma TakesIsUnique(banks: seq<RamBank>, v: seq<Bank>, kind: Kind, i: nat, pa0: nat, sz: nat, l: Live, pa: nat, m: Live, pb: nat)
    requires |v| == |banks| && Takes(banks, v, kind, i, pa0, sz, l, pa) && Takes(banks, v, kind, i, pa0, sz, m, pb)
    ensures l == m && pa == pb
  {
    hide Offers, FitsAt, RunFree, Holds, Pow2;
  }

  /** There are free frames for slot `i`: those it asks for, or an aligned run inside a bank. */
  ghost predicate RoomFor(banks: seq<RamBank>, v: seq<Bank>, kind: Kind, i: nat, pa: nat, sz: nat)
    requires |v| == |banks|
  {
    match kind
    case Reserved =>
      exists b | 0 <= b < |banks| ::
        Holds(banks[b], pa, sz) && b < |v| && RunFree(v[b].bits, FrameOf(banks[b].start, pa), SizeToPage(sz))
    case Alloced(order) =>
      PAGE_SHIFT <= order < BITS_PER_LONG && exists b | 0 <= b < |v| :: HasRoom(v[b], order, FramesFor(kind, sz), Any)
    case Colored(first, num, colors, order, matches) =>
      && num > 0 && first + i % num < colors
      && exists b | 0 <= b < |v| :: HasRoom(v[b], order, FramesFor(kind, sz), OfColor(matches, order, first + i % num))
  }

  /** A slot is served exactly if there are free frames for it. */
  lemma ServedExactly(banks: seq<RamBank>, r: Ram, kind: Kind, i: nat, pa: nat, sz: nat)
    requires |r.banks| == |banks| && Inv(r) && AllPadded(r) && BanksApart(banks) && sz > 0
    requires forall b | 0 <= b < |banks| :: banks[b].start == r.banks[b].start && banks[b].frames == r.banks[b].frames
    ensures Served(banks, r.banks, kind, i, pa, sz) <==> RoomFor(banks, r.banks, kind, i, pa, sz)
  {
    hide Pow2, Offers, HasRoom, BanksApart, RunFree;
    match kind
    case Reserved =>
      forall b | 0 <= b < |banks| && Holds(banks[b], pa, sz)
        ensures FirstHolder(banks, b, pa, sz)
        ensures ReservedFree(banks, r.banks, b, pa, sz) <==>
                RunFree(r.banks[b].bits, FrameOf(banks[b].start, pa), SizeToPage(sz))
      {
        forall j | 0 <= j < b ensures !Holds(banks[j], pa, sz) {
          OnlyHolder(banks, b, pa, sz, j);
        }
        CountedIfFree(banks, r, b, pa, sz);
      }
    case Alloced(order) =>
      OfferedInside(r, order, FramesFor(kind, sz), Any);
    case Colored(first, num, colors, order, matches) =>
      if num > 0 {
        OfferedInside(r, order, FramesFor(kind, sz), OfColor(matches, order, first + i % num));
      }
  }

  lemma CountedIfFree(banks: seq<RamBank>, r: Ram, b: nat, pa: nat, sz: nat)
    requires Inv(r) && b < |banks| == |r.banks| && Holds(banks[b], pa, sz)
    requires banks[b].start == r.banks[b].start && banks[b].frames == r.banks[b].frames
    ensures RunFree(r.banks[b].bits, FrameOf(banks[b].start, pa), SizeToPage(sz)) ==> SizeToPage(sz) <= r.banks[b].free
  {
    hide Clear;
    assert BankOk(r.banks[b]);
    FramesInside(banks[b].start, banks[b].frames, pa, sz);
    if RunFree(r.banks[b].bits, FrameOf(banks[b].start, pa), SizeToPage(sz)) {
      RunFreeCount(r.banks[b].bits, FrameOf(banks[b].start, pa), SizeToPage(sz), r.banks[b].frames);
    }
  }

  lemma OfferedInside(r: Ram, order: nat, cnt: nat, accepts: nat -> bool)
    requires Inv(r) && AllPadded(r)
    ensures forall b | 0 <= b < |r.banks| :: Offers(r.banks[b], order, cnt, accepts) <==> HasRoom(r.banks[b], order, cnt, accepts)
  {
    hide Clear, Pow2;
    forall b | 0 <= b < |r.banks|
      ensures Offers(r.banks[b], order, cnt, accepts) <==> HasRoom(r.banks[b], order, cnt, accepts)
    {
      assert BankOk(r.banks[b]);
      OfferedExactly(r.banks[b], order, cnt, accepts);
    }
  }

  /** Acquires the run of one slot. */
  method AcquireOne(ram: HostRam, ghost r: Ram, kind: Kind, i: nat, pa0: nat, sz: nat)
    returns (ok: bool, pa: nat, ghost l: Live)
    requires Ready(ram, r) && WellFormed(kind, sz)
    modifies ram.banks, ram.Bitmaps()
    ensures ram.Valid() && BanksApart(ram.banks)
    ensures !ok ==> Matches(ram, r)
    ensures ok ==> l.bank < |r.banks| && l !in r.live && Ready(ram, WithRun(r, l)) && RunOf(ram.banks, l, pa, sz)
                   && l.cnt == FramesFor(kind, sz)
    ensures if kind.Reserved? then pa == pa0 else ok ==> RunIsWhole(ram.banks, l, pa, sz)
    ensures ok <==> Served(ram.banks, r.banks, kind, i, pa0, sz)
    ensures ok ==> Takes(ram.banks, r.banks, kind, i, pa0, sz, l, pa)
  {
    hide Inv, AllPadded, RunOf, BanksApart, Pow2, SizeToPage, FirstOffer, RunFree, StepOf, RunIsWhole, Taken, RoundUp, Offers, Served, Takes;
    ghost var bank, pos;
    pa := pa0;
    match kind {
      case Reserved =>
        var rc;
        rc, bank, pos := ram.Reserve(pa, sz);
        ok := rc == Ok;
        l := Live(bank, pos, SizeToPage(sz), PAGE_SHIFT);
        ReservedServed(ram.banks, r.banks, i, pa, sz, bank);
        if ok {
          ReservedRun(ram.banks, r, bank, pa, sz);
        }
      case Alloced(order) =>
        var got;
        got, pa, bank, pos := ram.Alloc(sz, order);
        ok := got > 0;
        l := Live(bank, pos, SizeToPage(got), order);
        AllocedServed(ram.banks, r.banks, kind, i, pa0, sz, bank, pos);
        if ok {
          AllocedRun(ram.banks, r, kind, bank, pos, order, sz, got, Any);
        }
      case Colored(first, num, colors, order, matches) =>
        var got;
        got, pa, bank, pos := ram.ColorAlloc(first + i % num, colors, order, matches);
        ok := got > 0;
        l := Live(bank, pos, SizeToPage(got), order);
        ColoredServed(ram.banks, r.banks, kind, i, pa0, sz, bank, pos);
        if ok {
          AllocedRun(ram.banks, r, kind, bank, pos, order, sz, got, OfColor(matches, order, first + i % num));
        }
    }
  }

  lemma ReservedServed(banks: seq<RamBank>, v: seq<Bank>, i: nat, pa: nat, sz: nat, b: nat)
    requires |v| == |banks|
    ensures (forall j | 0 <= j < |banks| :: !Holds(banks[j], pa, sz)) ==> !Served(banks, v, Reserved, i, pa, sz)
    ensures FirstHolder(banks, b, pa, sz) ==>
              (Served(banks, v, Reserved, i, pa, sz) <==> ReservedFree(banks, v, b, pa, sz))
    ensures FirstHolder(banks, b, pa, sz) && ReservedFree(banks, v, b, pa, sz) ==>
              Takes(banks, v, Reserved, i, pa, sz, Live(b, FrameOf(banks[b].start, pa), SizeToPage(sz), PAGE_SHIFT), pa)
  {
    hide Holds, RunFree;
  }

  lemma AllocedServed(banks: seq<RamBank>, v: seq<Bank>, kind: Kind, i: nat, pa0: nat, sz: nat, b: nat, pos: nat)
    requires |v| == |banks| && kind.Alloced?
    ensures Served(banks, v, kind, i, pa0, sz) <==>
            PAGE_SHIFT <= kind.order < BITS_PER_LONG
            && exists b | 0 <= b < |banks| :: Offers(v[b], kind.order, SizeToPage(RoundUp(sz, kind.order)), Any)
    ensures PAGE_SHIFT <= kind.order < BITS_PER_LONG && FirstOffer(v, kind.order, FramesFor(kind, sz), Any, b, pos) ==>
              && b < |banks|
              && Takes(banks, v, kind, i, pa0, sz, Live(b, pos, FramesFor(kind, sz), kind.order), Address(banks[b].start, pos))
  {
    hide Offers, FirstFit, SizeToPage, RoundUp;
  }

  lemma ColoredServed(banks: seq<RamBank>, v: seq<Bank>, kind: Kind, i: nat, pa0: nat, sz: nat, b: nat, pos: nat)
    requires |v| == |banks| && kind.Colored? && kind.num > 0
    ensures var color := kind.first + i % kind.num;
            && (Served(banks, v, kind, i, pa0, sz) <==>
                color < kind.colors
                && exists b | 0 <= b < |banks| ::
                     Offers(v[b], kind.order, SizeToPage(Pow2(kind.order)), OfColor(kind.matches, kind.order, color)))
            && (color < kind.colors && FirstOffer(v, kind.order, FramesFor(kind, sz), OfColor(kind.matches, kind.order, color), b, pos) ==>
                && b < |banks|
                && Takes(banks, v, kind, i, pa0, sz, Live(b, pos, FramesFor(kind, sz), kind.order), Address(banks[b].start, pos)))
  {
    hide Offers, FirstFit, SizeToPage, OfColor;
  }

  /** `r` is about these banks. */
  ghost predicate AboutBanks(banks: seq<RamBank>, r: Ram) {
    && |banks| == |r.banks|
    && forall b | 0 <= b < |banks| :: banks[b].start == r.banks[b].start && banks[b].frames == r.banks[b].frames
  }

  /** Serving a slot keeps the invariant, and the slot then holds the run. */
  lemma TakesKeepsInv(banks: seq<RamBank>, r: Ram, kind: Kind, i: nat, pa0: nat, sz: nat, l: Live, pa: nat)
    requires AboutBanks(banks, r) && Inv(r) && AllPadded(r) && BanksApart(banks) && WellFormed(kind, sz)
    requires Takes(banks, r.banks, kind, i, pa0, sz, l, pa)
    ensures l.bank < |r.banks| && l !in r.live && Inv(WithRun(r, l)) && AllPadded(WithRun(r, l)) && SlotHolds(banks, kind, sz, pa, l)
  {
    hide Inv, AllPadded, BanksApart, Pow2, FirstOffer, RunFree, WithRun, RunOf, RunIsWhole, FrameOf;
    match kind
    case Reserved =>
      FramesInside(banks[l.bank].start, banks[l.bank].frames, pa, sz);
      ReservedRun(banks, r, l.bank, pa, sz);
    case Alloced(order) =>
      AllocedRun(banks, r, kind, l.bank, l.pos, order, sz, RoundUp(sz, order), Any);
    case Colored(first, num, colors, order, matches) =>
      AllocedRun(banks, r, kind, l.bank, l.pos, order, sz, Pow2(order), OfColor(matches, order, first + i % num));
  }

  lemma ReservedRun(banks: seq<RamBank>, r: Ram, bank: nat, pa: nat, sz: nat)
    requires Inv(r) && AllPadded(r) && |banks| == |r.banks| && bank < |banks| && BanksApart(banks) && sz > 0
    requires banks[bank].frames == r.banks[bank].frames && banks[bank].start == r.banks[bank].start && Holds(banks[bank], pa, sz)
    requires var pos := FrameOf(banks[bank].start, pa);
             pos + SizeToPage(sz) <= banks[bank].frames && RunFree(r.banks[bank].bits, pos, SizeToPage(sz))
    ensures var l := Live(bank, FrameOf(banks[bank].start, pa), SizeToPage(sz), PAGE_SHIFT);
            l !in r.live && Inv(WithRun(r, l)) && AllPadded(WithRun(r, l)) && RunOf(banks, l, pa, sz)
  {
    hide Inv, AllPadded;
    var pos := FrameOf(banks[bank].start, pa);
    var l := Live(bank, pos, SizeToPage(sz), PAGE_SHIFT);
    ReserveIsFresh(r, bank, pos, SizeToPage(sz));
    TakeKeepsInv(r, l);
    PaddedStep(r, Event.Reserve(bank, pa, sz), WithRun(r, l));
    forall i | 0 <= i < bank ensures !Holds(banks[i], pa, sz) {
      OnlyHolder(banks, bank, pa, sz, i);
    }
  }

  lemma AllocedRun(banks: seq<RamBank>, r: Ram, kind: Kind, bank: nat, pos: nat, order: nat, sz: nat, got: nat,
                   accepts: nat -> bool)
    requires Inv(r) && AllPadded(r) && |banks| == |r.banks| && bank < |banks| && BanksApart(banks) && WellFormed(kind, sz)
    requires banks[bank].frames == r.banks[bank].frames && banks[bank].start == r.banks[bank].start && order >= PAGE_SHIFT
    requires (kind.Alloced? && kind.order == order && got == RoundUp(sz, order)) || (kind.Colored? && kind.order == order && got == Pow2(order))
    requires FirstOffer(r.banks, order, SizeToPage(got), accepts, bank, pos)
    ensures SizeToPage(got) == FramesFor(kind, sz)
    ensures var l := Live(bank, pos, SizeToPage(got), order);
            && l !in r.live && Inv(WithRun(r, l)) && AllPadded(WithRun(r, l))
            && RunOf(banks, l, Address(banks[bank].start, pos), sz) && RunIsWhole(banks, l, Address(banks[bank].start, pos), sz)
  {
    hide Inv, AllPadded, FitsAt, RunOf, Pow2, BanksApart, RunIsWhole, SizeToPage;
    var cnt := SizeToPage(got);
    EnoughFrames(kind, sz);
    var l := Live(bank, pos, cnt, order);
    PaddedStep(r, Event.Alloc(bank, order, cnt, accepts, pos), WithRun(r, l));
    FirstFitInside(r.banks[bank], order, cnt, accepts, pos);
    AllocIsFresh(r, bank, order, cnt, accepts, pos);
    TakeKeepsInv(r, l);
    RunIsFound(banks, bank, pos, cnt, order, sz);
  }

  /** Gives the frames of one slot back; if it took more than that, the rest of them stay marked. */
  method ReleaseOne(ram: HostRam, ghost r: Ram, pa: nat, sz: nat, ghost l: Live)
    requires Ready(ram, r) && l in r.live && RunOf(ram.banks, l, pa, sz) && sz > 0
    modifies ram.banks, ram.Bitmaps()
    ensures l.bank < |r.banks| && Ready(ram, Trimmed(r, l, SizeToPage(sz))) && r.live !! Rest(l, SizeToPage(sz))
  {
    hide Inv, AllPadded, BanksApart, SizeToPage, StepOf, FrameOf;
    TrimKeepsInv(r, l, SizeToPage(sz));
    TrimStaysPadded(r, l, SizeToPage(sz));
    var rc;
    ghost var bank, pos;
    rc, bank, pos := ram.Free(pa, sz);
    SameHolder(ram.banks, l, pa, sz, bank);
  }

  lemma TrimStaysPadded(r: Ram, l: Live, n: nat)
    requires AllPadded(r) && LiveOk(r.banks, l) && n <= l.cnt
    ensures AllPadded(Trimmed(r, l, n))
  {
    hide Pow2;
    TakenStaysPadded(r.banks[l.bank], l.pos, n, false);
  }

  lemma SameHolder(banks: seq<RamBank>, l: Live, pa: nat, sz: nat, bank: nat)
    requires RunOf(banks, l, pa, sz) && bank < |banks| && Holds(banks[bank], pa, sz) && BanksApart(banks) && sz > 0
    ensures bank == l.bank
  {
    if bank != l.bank {
      OnlyHolder(banks, l.bank, pa, sz, bank);
    }
  }

  // ---------------------------------------------------------- whole regions

  ghost function Runs(runs: seq<Live>): set<Live> {
    set l | l in runs
  }

  /** Slot `i` holds this run. */
  ghost predicate SlotHolds(banks: seq<RamBank>, kind: Kind, sz: nat, pa: nat, l: Live) {
    && RunOf(banks, l, pa, sz) && l.cnt == FramesFor(kind, sz)
    && (kind.Reserved? || RunIsWhole(banks, l, pa, sz))
  }

  /** The slots up to `n` hold these runs, which are live besides `live`. */
  ghost predicate Holding(banks: seq<RamBank>, live: set<Live>, r: Ram, kind: Kind, sizes: seq<nat>, hphys: seq<nat>,
                          runs: seq<Live>, n: nat)
  {
    && n == |runs| <= |sizes| == |hphys|
    && r.live == live + Runs(runs) && live !! Runs(runs)
    && (forall i, j | 0 <= i < j < n :: runs[i] != runs[j])
    && (forall i | 0 <= i < n :: SlotHolds(banks, kind, sizes[i], hphys[i], runs[i]))
  }

  ghost predicate AllWellFormed(kind: Kind, sizes: seq<nat>) {
    forall i | 0 <= i < |sizes| :: WellFormed(kind, sizes[i])
  }

  /** The banks have the same extent; what may differ are the bitmaps and the counts. */
  ghost predicate SameShape(r: Ram, q: Ram) {
    && |r.banks| == |q.banks|
    && forall i | 0 <= i < |r.banks| ::
         r.banks[i].start == q.banks[i].start && r.banks[i].frames == q.banks[i].frames && |r.banks[i].bits| == |q.banks[i].bits|
  }

  lemma HoldingMore(banks: seq<RamBank>, live: set<Live>, r: Ram, kind: Kind, sizes: seq<nat>, hphys: seq<nat>,
                    runs: seq<Live>, l: Live, pa: nat)
    requires Holding(banks, live, r, kind, sizes, hphys, runs, |runs|) && |runs| < |sizes|
    requires l !in r.live && l.bank < |r.banks| && SlotHolds(banks, kind, sizes[|runs|], pa, l)
    ensures Holding(banks, live, WithRun(r, l), kind, sizes, hphys[|runs| := pa], runs + [l], |runs| + 1)
    ensures SameShape(r, WithRun(r, l))
  {
    hide SlotHolds;
    var more := runs + [l];
    assert Runs(more) == Runs(runs) + {l};
    forall i | 0 <= i < |more| ensures SlotHolds(banks, kind, sizes[i], hphys[|runs| := pa][i], more[i]) {
    }
    forall i, j | 0 <= i < j < |more| ensures more[i] != more[j] {
      assert more[i] in runs;
    }
  }

  /** What is lost of the first `n` runs: the frames that were taken for a slot and are not given back for it. */
  ghost function Lost(sizes: seq<nat>, runs: seq<Live>, n: nat): set<Live>
    requires n <= |sizes| && |runs| <= |sizes|
  {
    if n == 0 then {}
    else Lost(sizes, runs, n - 1) + if n <= |runs| then Rest(runs[n - 1], SizeToPage(sizes[n - 1])) else {}
  }

  /** Nothing is lost exactly if every run has as many frames as are given back for its slot. */
  lemma {:induction false} NothingLost(banks: seq<RamBank>, sizes: seq<nat>, hphys: seq<nat>, runs: seq<Live>, n: nat)
    requires n <= |sizes| == |hphys| && |runs| <= |sizes|
    requires forall i | 0 <= i < |runs| :: RunOf(banks, runs[i], hphys[i], sizes[i])
    ensures Lost(sizes, runs, n) == {} <==> forall i | 0 <= i < n && i < |runs| :: runs[i].cnt == SizeToPage(sizes[i])
  {
    if n > 0 {
      NothingLost(banks, sizes, hphys, runs, n - 1);
      assert n <= |runs| ==> RunOf(banks, runs[n - 1], hphys[n - 1], sizes[n - 1]);
    }
  }

  /** The banks are what they were exactly if the same runs are live. */
  lemma RestoredExactly(r0: Ram, r: Ram, lost: set<Live>)
    requires Inv(r0) && AllPadded(r0) && Inv(r) && AllPadded(r) && SameShape(r0, r)
    requires r.live == r0.live + lost && r0.live !! lost
    ensures r.banks == r0.banks <==> lost == {}
  {
    hide Inv, AllPadded, BankOk;
    if lost == {} {
      forall i | 0 <= i < |r0.banks| ensures r.banks[i] == r0.banks[i] {
        LiveDeterminesBank(r0, r, i);
      }
    } else {
      var m :| m in lost;
      MarkedFrame(r0, r, m);
    }
  }

  lemma MarkedFrame(r0: Ram, r: Ram, m: Live)
    requires Inv(r0) && AllPadded(r0) && Inv(r) && SameShape(r0, r) && r0.live <= r.live && m in r.live && m !in r0.live
    ensures r.banks != r0.banks
  {
    hide BankOk, Pow2;
    assert LiveOk(r.banks, m);
    forall k | k in r0.live ensures !Covers(k, m.bank, m.pos) {
      assert HostRamRuns.Disjoint(k, m);
    }
    if r.banks == r0.banks {
      BitIsLive(r0, m.bank, m.pos);
    }
  }

  /** These runs, one for each slot, are live besides `live`. */
  ghost predicate HoldsRuns(banks: seq<RamBank>, live: set<Live>, r: Ram, sizes: seq<nat>, hphys: seq<nat>, runs: seq<Live>) {
    && |runs| <= |sizes| == |hphys|
    && r.live == live + Runs(runs) && live !! Runs(runs)
    && (forall i, j | 0 <= i < j < |runs| :: runs[i] != runs[j])
    && (forall i | 0 <= i < |runs| :: RunOf(banks, runs[i], hphys[i], sizes[i]))
  }

  lemma HoldingRuns(banks: seq<RamBank>, live: set<Live>, r: Ram, kind: Kind, sizes: seq<nat>, hphys: seq<nat>, runs: seq<Live>)
    requires Holding(banks, live, r, kind, sizes, hphys, runs, |runs|)
    ensures HoldsRuns(banks, live, r, sizes, hphys, runs)
    ensures |runs| <= |sizes| == |hphys|
    ensures forall i | 0 <= i < |runs| :: RunOf(banks, runs[i], hphys[i], sizes[i]) && runs[i].cnt == FramesFor(kind, sizes[i])
  {
    hide RunOf, RunIsWhole;
    forall i | 0 <= i < |runs| ensures RunOf(banks, runs[i], hphys[i], sizes[i]) && runs[i].cnt == FramesFor(kind, sizes[i]) {
      assert SlotHolds(banks, kind, sizes[i], hphys[i], runs[i]);
    }
  }

  /** The banks and live runs once the first `n` slots have been released. */
  ghost function Released(r: Ram, sizes: seq<nat>, runs: seq<Live>, n: nat): (q: Ram)
    requires n <= |sizes|
    ensures |q.banks| == |r.banks|
  {
    if n == 0 then r
    else
      var q := Released(r, sizes, runs, n - 1);
      if n <= |runs| && runs[n - 1].bank < |q.banks| then Trimmed(q, runs[n - 1], SizeToPage(sizes[n - 1])) else q
  }

  lemma NoneReleased(r: Ram, sizes: seq<nat>, runs: seq<Live>)
    ensures Released(r, sizes, runs, 0) == r
  {
  }

  /** Releasing keeps the invariant, and what is live then is what was live besides the slots, and what they lost. */
  lemma {:induction false} ReleasedHolds(banks: seq<RamBank>, live: set<Live>, r: Ram, sizes: seq<nat>, hphys: seq<nat>,
                                         runs: seq<Live>, n: nat)
    requires Inv(r) && AllPadded(r) && HoldsRuns(banks, live, r, sizes, hphys, runs) && n <= |sizes|
    ensures var q := Released(r, sizes, runs, n);
            Inv(q) && AllPadded(q) && SameShape(r, q) && StillHeld(banks, live, q, sizes, hphys, runs, n)
  {
    hide Inv, AllPadded, SameShape, HoldsRuns, StillHeld, Trimmed, RunOf;
    if n == 0 {
      LeftAtStart(banks, live, r, sizes, hphys, runs);
    } else {
      ReleasedHolds(banks, live, r, sizes, hphys, runs, n - 1);
      var q := Released(r, sizes, runs, n - 1);
      LeftNext(banks, live, q, sizes, hphys, runs, n - 1);
      if n <= |runs| {
        RunFrames(banks, runs[n - 1], hphys[n - 1], sizes[n - 1]);
        TrimKeepsInv(q, runs[n - 1], SizeToPage(sizes[n - 1]));
        TrimStaysPadded(q, runs[n - 1], SizeToPage(sizes[n - 1]));
        LiveBank(q, runs[n - 1]);
        LeftTrimmed(banks, live, r, q, sizes, hphys, runs, n - 1);
      }
    }
  }

  lemma RunFrames(banks: seq<RamBank>, l: Live, pa: nat, sz: nat)
    requires RunOf(banks, l, pa, sz)
    ensures 0 < SizeToPage(sz) <= l.cnt
  {
  }

  lemma LiveBank(r: Ram, l: Live)
    requires LiveOk(r.banks, l)
    ensures l.bank < |r.banks|
  {
  }

  /** Releases the slots that hold RAM, one after the other; what they took beyond their size stays live. */
  method ReleaseSlots(ram: HostRam, ghost live: set<Live>, ghost r: Ram, sizes: seq<nat>, hphys: seq<nat>, held: array<bool>,
                      ghost runs: seq<Live>)
    returns (ghost now: Ram)
    requires Ready(ram, r) && held.Length == |sizes| == |hphys| && held !in ram.Bitmaps()
    requires HoldsRuns(ram.banks, live, r, sizes, hphys, runs)
    requires forall i | 0 <= i < |sizes| :: held[i] <==> i < |runs|
    modifies ram.banks, ram.Bitmaps(), held
    ensures |runs| <= |sizes| && Ready(ram, now) && SameShape(r, now) && now == Released(r, sizes, runs, |sizes|)
    ensures now.live == live + Lost(sizes, runs, |sizes|) && live !! Lost(sizes, runs, |sizes|)
    ensures forall i | 0 <= i < |sizes| :: !held[i]
  {
    hide Inv, AllPadded, BanksApart, RunOf, SameShape, HoldsRuns, StillHeld, Released, Lost, Ready;
    now := r;
    assert now == Released(r, sizes, runs, 0) by { NoneReleased(r, sizes, runs); }
    LeftAtStart(ram.banks, live, r, sizes, hphys, runs);
    for i := 0 to |sizes|
      invariant Ready(ram, now) && SameShape(r, now) && now == Released(r, sizes, runs, i)
      invariant StillHeld(ram.banks, live, now, sizes, hphys, runs, i)
      invariant forall j | 0 <= j < |sizes| :: held[j] <==> i <= j < |runs|
    {
      now := ReleaseSlot(ram, live, r, sizes, hphys, held[i], runs, i);
      held[i] := false;
    }
    LeftNone(ram.banks, live, now, sizes, hphys, runs);
  }

  /** Releases slot `i` if it holds RAM. */
  method ReleaseSlot(ram: HostRam, ghost live: set<Live>, ghost r: Ram, sizes: seq<nat>, hphys: seq<nat>, held: bool,
                     ghost runs: seq<Live>, i: nat)
    returns (ghost now: Ram)
    requires i < |sizes| == |hphys| && Ready(ram, Released(r, sizes, runs, i)) && SameShape(r, Released(r, sizes, runs, i))
    requires StillHeld(ram.banks, live, Released(r, sizes, runs, i), sizes, hphys, runs, i) && (held <==> i < |runs|)
    modifies ram.banks, ram.Bitmaps()
    ensures Ready(ram, now) && SameShape(r, now) && now == Released(r, sizes, runs, i + 1)
    ensures StillHeld(ram.banks, live, now, sizes, hphys, runs, i + 1)
  {
    hide Inv, AllPadded, BanksApart, RunOf, SameShape, StillHeld, Trimmed, SizeToPage;
    now := Released(r, sizes, runs, i);
    LeftNext(ram.banks, live, now, sizes, hphys, runs, i);
    if held {
      ReleaseOne(ram, now, hphys[i], sizes[i], runs[i]);
      LeftTrimmed(ram.banks, live, r, now, sizes, hphys, runs, i);
      now := Trimmed(now, runs[i], SizeToPage(sizes[i]));
    }
  }

  /** Releasing the slots restores every bank exactly if each took as many frames as it gives back. */
  method ReleaseAll(ram: HostRam, ghost r0: Ram, ghost r: Ram, ghost kind: Kind, sizes: seq<nat>, hphys: array<nat>,
                    held: array<bool>, ghost runs: seq<Live>)
    requires Ready(ram, r) && Inv(r0) && AllPadded(r0) && SameShape(r0, r)
    requires hphys.Length == held.Length == |sizes| && held !in ram.Bitmaps()
    requires Holding(ram.banks, r0.live, r, kind, sizes, hphys[..], runs, |runs|)
    requires forall i | 0 <= i < |sizes| :: held[i] <==> i < |runs|
    modifies ram.banks, ram.Bitmaps(), held
    ensures |runs| <= |sizes| && Ready(ram, Released(r, sizes, runs, |sizes|))
    ensures Matches(ram, r0) <==> forall i | 0 <= i < |runs| :: Exact(kind, sizes[i])
    ensures forall i | 0 <= i < |sizes| :: !held[i]
  {
    hide Inv, AllPadded, BanksApart, RunOf, RunIsWhole, SlotHolds, SameShape, Holding;
    HoldingRuns(ram.banks, r0.live, r, kind, sizes, hphys[..], runs);
    ghost var now := ReleaseSlots(ram, r0.live, r, sizes, hphys[..], held, runs);
    ShapeTrans(r0, r, now);
    RestoredExactly(r0, now, Lost(sizes, runs, |sizes|));
    NothingLost(ram.banks, sizes, hphys[..], runs, |sizes|);
  }

  /** From slot `i` on the runs are still live besides `live`; of those before it the rest that is lost. */
  ghost predicate StillHeld(banks: seq<RamBank>, live: set<Live>, r: Ram, sizes: seq<nat>, hphys: seq<nat>, runs: seq<Live>, i: nat) {
    && |runs| <= |sizes| == |hphys| && i <= |sizes|
    && (forall j, k | 0 <= j < k < |runs| :: runs[j] != runs[k])
    && (forall j | 0 <= j < |runs| :: RunOf(banks, runs[j], hphys[j], sizes[j]))
    && live !! Runs(runs) && live !! Lost(sizes, runs, i) && Lost(sizes, runs, i) !! Ahead(runs, i)
    && r.live == live + Ahead(runs, i) + Lost(sizes, runs, i)
  }

  ghost function Ahead(runs: seq<Live>, i: nat): set<Live> {
    if i < |runs| then Runs(runs[i..]) else {}
  }

  lemma LeftAtStart(banks: seq<RamBank>, live: set<Live>, r: Ram, sizes: seq<nat>, hphys: seq<nat>, runs: seq<Live>)
    requires HoldsRuns(banks, live, r, sizes, hphys, runs)
    ensures StillHeld(banks, live, r, sizes, hphys, runs, 0) && SameShape(r, r)
  {
    hide RunOf;
    assert runs[0..] == runs;
  }

  lemma LeftNext(banks: seq<RamBank>, live: set<Live>, r: Ram, sizes: seq<nat>, hphys: seq<nat>, runs: seq<Live>, i: nat)
    requires StillHeld(banks, live, r, sizes, hphys, runs, i) && i < |sizes|
    ensures i >= |runs| ==> StillHeld(banks, live, r, sizes, hphys, runs, i + 1)
    ensures |hphys| == |sizes|
    ensures i < |runs| ==> runs[i] in r.live && RunOf(banks, runs[i], hphys[i], sizes[i]) && sizes[i] > 0
  {
    assert i < |runs| ==> RunOf(banks, runs[i], hphys[i], sizes[i]);
    if i < |runs| {
      assert runs[i..][0] == runs[i];
    }
  }

  lemma LeftTrimmed(banks: seq<RamBank>, live: set<Live>, r0: Ram, r: Ram, sizes: seq<nat>, hphys: seq<nat>, runs: seq<Live>, i: nat)
    requires StillHeld(banks, live, r, sizes, hphys, runs, i) && i < |runs| && runs[i].bank < |r.banks|
    requires r.live !! Rest(runs[i], SizeToPage(sizes[i]))
    ensures StillHeld(banks, live, Trimmed(r, runs[i], SizeToPage(sizes[i])), sizes, hphys, runs, i + 1)
    ensures SameShape(r0, r) ==> SameShape(r0, Trimmed(r, runs[i], SizeToPage(sizes[i])))
  {
    hide RunOf;
    RunsTail(runs, i);
    assert runs[i] in Runs(runs);
  }

  lemma RunsTail(runs: seq<Live>, i: nat)
    requires i < |runs| && forall j, k | 0 <= j < k < |runs| :: runs[j] != runs[k]
    ensures Ahead(runs, i) - {runs[i]} == Ahead(runs, i + 1) && runs[i] in Ahead(runs, i)
  {
    assert runs[i..] == [runs[i]] + runs[i + 1..];
    assert runs[i] !in runs[i + 1..];
  }

  lemma LeftNone(banks: seq<RamBank>, live: set<Live>, r: Ram, sizes: seq<nat>, hphys: seq<nat>, runs: seq<Live>)
    requires StillHeld(banks, live, r, sizes, hphys, runs, |sizes|)
    ensures |runs| <= |sizes| && r.live == live + Lost(sizes, runs, |sizes|) && live !! Lost(sizes, runs, |sizes|)
  {
    hide RunOf;
  }

  // ------------------------------------------------------- one slot after the other

  /** The banks and live runs once these runs have been taken. */
  ghost function TakenAll(r: Ram, runs: seq<Live>): (q: Ram)
    ensures |q.banks| == |r.banks|
  {
    if runs == [] then r
    else
      var q, l := TakenAll(r, runs[..|runs| - 1]), runs[|runs| - 1];
      if l.bank < |q.banks| then WithRun(q, l) else q
  }

  /** The first slots are served with these runs, one after the other; `hphys` are then their host addresses. */
  ghost predicate Chain(banks: seq<RamBank>, r0: Ram, kind: Kind, sizes: seq<nat>, hphys0: seq<nat>, hphys: seq<nat>, runs: seq<Live>)
    requires |r0.banks| == |banks|
    decreases |runs|
  {
    && |runs| <= |sizes| == |hphys0| == |hphys|
    && (runs == [] ||
        var k := |runs| - 1;
        && Chain(banks, r0, kind, sizes, hphys0, hphys, runs[..k])
        && Takes(banks, TakenAll(r0, runs[..k]).banks, kind, k, hphys0[k], sizes[k], runs[k], hphys[k]))
  }

  /** Every slot can be served, one after the other. */
  ghost predicate Fits(banks: seq<RamBank>, r0: Ram, kind: Kind, sizes: seq<nat>, hphys0: seq<nat>)
    requires |r0.banks| == |banks|
  {
    exists hphys, runs :: |runs| == |sizes| && Chain(banks, r0, kind, sizes, hphys0, hphys, runs)
  }

  /** After these slots the next one cannot be served. */
  ghost predicate Stuck(banks: seq<RamBank>, r0: Ram, kind: Kind, sizes: seq<nat>, hphys0: seq<nat>, runs: seq<Live>)
    requires |r0.banks| == |banks|
  {
    var k := |runs|;
    k < |sizes| == |hphys0| && !Served(banks, TakenAll(r0, runs).banks, kind, k, hphys0[k], sizes[k])
  }

  lemma {:induction false} ChainSame(banks: seq<RamBank>, r0: Ram, kind: Kind, sizes: seq<nat>, hphys0: seq<nat>, hphys: seq<nat>,
                                     runs: seq<Live>, k: nat, pa: nat)
    requires |r0.banks| == |banks| && Chain(banks, r0, kind, sizes, hphys0, hphys, runs) && |runs| <= k < |hphys|
    ensures Chain(banks, r0, kind, sizes, hphys0, hphys[k := pa], runs)
    decreases |runs|
  {
    hide Takes, TakenAll;
    if runs != [] {
      ChainSame(banks, r0, kind, sizes, hphys0, hphys, runs[..|runs| - 1], k, pa);
    }
  }

  lemma TakenMore(r: Ram, runs: seq<Live>, l: Live)
    requires l.bank < |r.banks|
    ensures TakenAll(r, runs + [l]) == WithRun(TakenAll(r, runs), l)
  {
    hide WithRun;
    assert (runs + [l])[..|runs|] == runs;
  }

  lemma ChainMore(banks: seq<RamBank>, r0: Ram, kind: Kind, sizes: seq<nat>, hphys0: seq<nat>, hphys: seq<nat>, runs: seq<Live>,
                  l: Live, pa: nat)
    requires |r0.banks| == |banks| && Chain(banks, r0, kind, sizes, hphys0, hphys, runs) && |runs| < |sizes|
    requires var k := |runs|; Takes(banks, TakenAll(r0, runs).banks, kind, k, hphys0[k], sizes[k], l, pa)
    ensures Chain(banks, r0, kind, sizes, hphys0, hphys[|runs| := pa], runs + [l])
  {
    hide Takes, TakenAll;
    ChainSame(banks, r0, kind, sizes, hphys0, hphys, runs, |runs|, pa);
    assert (runs + [l])[..|runs|] == runs;
  }

  lemma {:induction false} ChainPrefix(banks: seq<RamBank>, r0: Ram, kind: Kind, sizes: seq<nat>, hphys0: seq<nat>, hphys: seq<nat>,
                                       runs: seq<Live>, k: nat)
    requires |r0.banks| == |banks| && Chain(banks, r0, kind, sizes, hphys0, hphys, runs) && k < |runs|
    ensures Chain(banks, r0, kind, sizes, hphys0, hphys, runs[..k])
    ensures |hphys| == |sizes| && Takes(banks, TakenAll(r0, runs[..k]).banks, kind, k, hphys0[k], sizes[k], runs[k], hphys[k])
    decreases |runs|
  {
    hide Takes, TakenAll;
    if k < |runs| - 1 {
      ChainPrefix(banks, r0, kind, sizes, hphys0, hphys, runs[..|runs| - 1], k);
      assert runs[..|runs| - 1][..k] == runs[..k];
    }
  }

  /** Serving slots one after the other keeps the invariant, and they then hold the runs. */
  lemma {:induction false} ChainHolds(banks: seq<RamBank>, r0: Ram, kind: Kind, sizes: seq<nat>, hphys0: seq<nat>, hphys: seq<nat>,
                                      runs: seq<Live>)
    requires AboutBanks(banks, r0) && Inv(r0) && AllPadded(r0) && BanksApart(banks) && AllWellFormed(kind, sizes)
    requires Chain(banks, r0, kind, sizes, hphys0, hphys, runs)
    ensures var q := TakenAll(r0, runs);
            && AboutBanks(banks, q) && Inv(q) && AllPadded(q) && SameShape(r0, q)
            && Holding(banks, r0.live, q, kind, sizes, hphys, runs, |runs|)
    decreases |runs|
  {
    hide Inv, AllPadded, BanksApart, Holding, Takes, WithRun, SameShape, WellFormed, AboutBanks;
    if runs == [] {
      HoldingNothing(banks, r0, kind, sizes, hphys);
    } else {
      var k := |runs| - 1;
      var q, l := TakenAll(r0, runs[..k]), runs[k];
      ChainHolds(banks, r0, kind, sizes, hphys0, hphys, runs[..k]);
      assert WellFormed(kind, sizes[k]);
      TakesKeepsInv(banks, q, kind, k, hphys0[k], sizes[k], l, hphys[k]);
      HoldingMore(banks, r0.live, q, kind, sizes, hphys, runs[..k], l, hphys[k]);
      assert hphys[k := hphys[k]] == hphys && runs[..k] + [l] == runs;
      ShapeTrans(r0, q, WithRun(q, l));
      AboutSame(banks, q, WithRun(q, l));
    }
  }

  /** Every slot that was served got what it was promised. */
  lemma ChainAsPromised(banks: seq<RamBank>, r0: Ram, kind: Kind, sizes: seq<nat>, hphys0: seq<nat>, hphys: seq<nat>,
                        runs: seq<Live>, i: nat)
    requires AboutBanks(banks, r0) && Inv(r0) && AllPadded(r0) && BanksApart(banks) && AllWellFormed(kind, sizes)
    requires Chain(banks, r0, kind, sizes, hphys0, hphys, runs) && i < |runs|
    ensures |hphys0| == |hphys| == |sizes| && Promised(kind, i, hphys0[i], hphys[i])
  {
    hide Inv, AllPadded, BanksApart, Holding, Takes, TakenAll, SameShape, WellFormed, Promised;
    ChainPrefix(banks, r0, kind, sizes, hphys0, hphys, runs, i);
    ChainHolds(banks, r0, kind, sizes, hphys0, hphys, runs[..i]);
    var q := TakenAll(r0, runs[..i]);
    assert runs[i].bank < |banks| by { TakesInside(banks, q.banks, kind, i, hphys0[i], sizes[i], runs[i], hphys[i]); }
    TakesAsPromised(banks, q.banks, kind, i, hphys0[i], sizes[i], runs[i], hphys[i]);
  }

  lemma TakesInside(banks: seq<RamBank>, v: seq<Bank>, kind: Kind, i: nat, pa0: nat, sz: nat, l: Live, pa: nat)
    requires |v| == |banks| && Takes(banks, v, kind, i, pa0, sz, l, pa)
    ensures l.bank < |banks|
  {
  }

  lemma AboutSame(banks: seq<RamBank>, r: Ram, q: Ram)
    requires AboutBanks(banks, r) && SameShape(r, q)
    ensures AboutBanks(banks, q)
  {
  }

  /** The banks determine the runs: of two chains, one begins with the other. */
  lemma {:induction false} ChainIsUnique(banks: seq<RamBank>, r0: Ram, kind: Kind, sizes: seq<nat>, hphys0: seq<nat>,
                                         hphys: seq<nat>, runs: seq<Live>, hphys': seq<nat>, runs': seq<Live>)
    requires |r0.banks| == |banks| && |runs| <= |runs'|
    requires Chain(banks, r0, kind, sizes, hphys0, hphys, runs) && Chain(banks, r0, kind, sizes, hphys0, hphys', runs')
    ensures runs == runs'[..|runs|]
    decreases |runs|
  {
    hide Takes, TakenAll;
    if runs != [] {
      var k := |runs| - 1;
      ChainIsUnique(banks, r0, kind, sizes, hphys0, hphys, runs[..k], hphys', runs');
      ChainPrefix(banks, r0, kind, sizes, hphys0, hphys', runs', k);
      TakesIsUnique(banks, TakenAll(r0, runs[..k]).banks, kind, k, hphys0[k], sizes[k], runs[k], hphys[k], runs'[k], hphys'[k]);
      assert runs == runs[..k] + [runs[k]] && runs'[..k + 1] == runs'[..k] + [runs'[k]];
    }
  }

  /** Where the slots get stuck, no way of serving all of them exists. */
  lemma StuckDoesNotFit(banks: seq<RamBank>, r0: Ram, kind: Kind, sizes: seq<nat>, hphys0: seq<nat>, hphys: seq<nat>, runs: seq<Live>)
    requires |r0.banks| == |banks| && Chain(banks, r0, kind, sizes, hphys0, hphys, runs)
    requires Stuck(banks, r0, kind, sizes, hphys0, runs)
    ensures !Fits(banks, r0, kind, sizes, hphys0)
  {
    hide Takes, TakenAll, Chain, Served;
    var k := |runs|;
    forall hphys', runs' | |runs'| == |sizes| && Chain(banks, r0, kind, sizes, hphys0, hphys', runs') ensures false {
      ChainIsUnique(banks, r0, kind, sizes, hphys0, hphys, runs, hphys', runs');
      ChainPrefix(banks, r0, kind, sizes, hphys0, hphys', runs', k);
      TakesIsServed(banks, TakenAll(r0, runs).banks, kind, k, hphys0[k], sizes[k], runs'[k], hphys'[k]);
    }
  }

  /** No slot at all is served exactly if the first one cannot be. */
  lemma FirstIsServed(banks: seq<RamBank>, r0: Ram, kind: Kind, sizes: seq<nat>, hphys0: seq<nat>, hphys: seq<nat>, runs: seq<Live>)
    requires |r0.banks| == |banks| && Chain(banks, r0, kind, sizes, hphys0, hphys, runs) && |sizes| > 0
    requires |runs| == |sizes| || Stuck(banks, r0, kind, sizes, hphys0, runs)
    ensures runs == [] <==> !Served(banks, r0.banks, kind, 0, hphys0[0], sizes[0])
  {
    hide Takes, Served;
    assert TakenAll(r0, []) == r0;
    if runs != [] {
      ChainPrefix(banks, r0, kind, sizes, hphys0, hphys, runs, 0);
      assert runs[..0] == [];
      TakesIsServed(banks, r0.banks, kind, 0, hphys0[0], sizes[0], runs[0], hphys[0]);
    }
  }

  /**
    Acquires RAM for every slot, which succeeds exactly if every slot can be served.  Otherwise the ones before the
    one that cannot are released again; the bitmaps and free counts of all banks are then as before exactly if those
    slots were exact.
   */
  method AcquireAll(ram: HostRam, ghost r0: Ram, kind: Kind, sizes: seq<nat>, hphys: array<nat>, held: array<bool>)
    returns (ok: bool, ghost r: Ram, ghost runs: seq<Live>)
    requires Ready(ram, r0) && AllWellFormed(kind, sizes)
    requires hphys.Length == held.Length == |sizes| && hphys !in ram.Bitmaps() && held !in ram.Bitmaps()
    requires forall i | 0 <= i < |sizes| :: !held[i]
    modifies ram.banks, ram.Bitmaps(), hphys, held
    ensures ram.Valid() && |runs| <= |sizes|
    ensures ok <==> Fits(ram.banks, r0, kind, sizes, old(hphys[..]))
    ensures Chain(ram.banks, r0, kind, sizes, old(hphys[..]), hphys[..], runs) && r == TakenAll(r0, runs)
    ensures if ok then |runs| == |sizes| else Stuck(ram.banks, r0, kind, sizes, old(hphys[..]), runs)
    ensures !ok ==> Ready(ram, Released(r, sizes, runs, |sizes|))
                    && (Matches(ram, r0) <==> forall i | 0 <= i < |runs| :: Exact(kind, sizes[i]))
    ensures ok ==> Ready(ram, r) && SameShape(r0, r) && Holding(ram.banks, r0.live, r, kind, sizes, hphys[..], runs, |sizes|)
    ensures kind.Reserved? ==> hphys[..] == old(hphys[..])
    ensures ok ==> forall i | 0 <= i < |sizes| :: Promised(kind, i, old(hphys[i]), hphys[i])
    ensures forall i | 0 <= i < |sizes| :: held[i] <==> ok
  {
    hide Inv, AllPadded, BanksApart, RunOf, RunIsWhole, SameShape, Holding, Exact, WithRun, WellFormed, Chain, Fits, Served, AboutBanks, Promised;
    r, runs := r0, [];
    ghost var hphys0 := hphys[..];
    ReadyIsAbout(ram, r0);
    HoldingNothing(ram.banks, r0, kind, sizes, hphys[..]);
    assert Chain(ram.banks, r0, kind, sizes, hphys0, hphys[..], []) by { ChainStarts(ram.banks, r0, kind, sizes, hphys0); }
    for i := 0 to |sizes|
      invariant |runs| == i && Ready(ram, r) && SameShape(r0, r) && r == TakenAll(r0, runs)
      invariant Holding(ram.banks, r0.live, r, kind, sizes, hphys[..], runs, i)
      invariant Chain(ram.banks, r0, kind, sizes, hphys0, hphys[..], runs)
      invariant forall j | i <= j < |sizes| :: hphys[j] == hphys0[j]
      invariant kind.Reserved? ==> hphys[..] == hphys0
      invariant forall j | 0 <= j < |sizes| :: held[j] <==> j < i
    {
      ok, r, runs := AcquireSlot(ram, r0, r, kind, sizes, hphys0, hphys, i, runs);
      if !ok {
        StuckDoesNotFit(ram.banks, r0, kind, sizes, hphys0, hphys[..], runs);
        ReleaseAll(ram, r0, r, kind, sizes, hphys, held, runs);
        return;
      }
      held[i] := true;
    }
    ok := true;
    ChainFits(ram.banks, r0, kind, sizes, hphys0, hphys[..], runs);
    forall i | 0 <= i < |sizes| ensures Promised(kind, i, hphys0[i], hphys[i]) {
      ChainAsPromised(ram.banks, r0, kind, sizes, hphys0, hphys[..], runs, i);
    }
  }

  lemma ReadyIsAbout(ram: HostRam, r: Ram)
    requires Ready(ram, r)
    ensures AboutBanks(ram.banks, r)
  {
  }

  lemma ChainStarts(banks: seq<RamBank>, r0: Ram, kind: Kind, sizes: seq<nat>, hphys0: seq<nat>)
    requires |r0.banks| == |banks| && |sizes| == |hphys0|
    ensures Chain(banks, r0, kind, sizes, hphys0, hphys0, []) && TakenAll(r0, []) == r0
  {
  }

  lemma ChainFits(banks: seq<RamBank>, r0: Ram, kind: Kind, sizes: seq<nat>, hphys0: seq<nat>, hphys: seq<nat>, runs: seq<Live>)
    requires |r0.banks| == |banks| && Chain(banks, r0, kind, sizes, hphys0, hphys, runs) && |runs| == |sizes|
    ensures Fits(banks, r0, kind, sizes, hphys0)
  {
    hide Chain;
  }

  /** Acquires RAM for the next slot, exactly if it can be served. */
  method AcquireSlot(ram: HostRam, ghost r0: Ram, ghost r: Ram, kind: Kind, sizes: seq<nat>, ghost hphys0: seq<nat>,
                     hphys: array<nat>, i: nat, ghost runs: seq<Live>)
    returns (ok: bool, ghost r': Ram, ghost runs': seq<Live>)
    requires Ready(ram, r) && SameShape(r0, r) && AllWellFormed(kind, sizes) && |r0.banks| == |ram.banks|
    requires hphys.Length == |sizes| && i == |runs| < |sizes| && hphys !in ram.Bitmaps()
    requires Holding(ram.banks, r0.live, r, kind, sizes, hphys[..], runs, i)
    requires Chain(ram.banks, r0, kind, sizes, hphys0, hphys[..], runs) && r == TakenAll(r0, runs)
    requires |hphys0| == |sizes| && hphys[i] == hphys0[i]
    modifies ram.banks, ram.Bitmaps(), hphys
    ensures Ready(ram, r') && SameShape(r0, r')
    ensures if ok then |runs'| == i + 1 else r' == r && runs' == runs && hphys[..] == old(hphys[..])
    ensures ok <==> Served(ram.banks, r.banks, kind, i, hphys0[i], sizes[i])
    ensures Holding(ram.banks, r0.live, r', kind, sizes, hphys[..], runs', |runs'|)
    ensures Chain(ram.banks, r0, kind, sizes, hphys0, hphys[..], runs') && r' == TakenAll(r0, runs')
    ensures forall j | i < j < |sizes| :: hphys[j] == old(hphys[j])
    ensures kind.Reserved? ==> hphys[..] == old(hphys[..])
  {
    hide Inv, AllPadded, BanksApart, RunOf, RunIsWhole, SameShape, Holding, Exact, WithRun, WellFormed, Chain, Served, Takes, TakenAll;
    var pa;
    ghost var l;
    r', runs' := r, runs;
    ok, pa, l := AcquireOne(ram, r, kind, i, hphys[i], sizes[i]);
    if ok {
      HoldingMore(ram.banks, r0.live, r, kind, sizes, hphys[..], runs, l, pa);
      ShapeTrans(r0, r, WithRun(r, l));
      ChainMore(ram.banks, r0, kind, sizes, hphys0, hphys[..], runs, l, pa);
      TakenMore(r0, runs, l);
      hphys[i] := pa;
      r', runs' := WithRun(r, l), runs + [l];
    }
  }

  lemma HoldingNothing(banks: seq<RamBank>, r: Ram, kind: Kind, sizes: seq<nat>, hphys: seq<nat>)
    requires |sizes| == |hphys|
    ensures Holding(banks, r.live, r, kind, sizes, hphys, [], 0) && SameShape(r, r)
  {
  }

  lemma ShapeTrans(r: Ram, q: Ram, p: Ram)
    requires SameShape(r, q) && SameShape(q, p)
    ensures SameShape(r, p)
  {
  }

  lemma HoldingLength(banks: seq<RamBank>, live: set<Live>, r: Ram, kind: Kind, sizes: seq<nat>, hphys: seq<nat>, runs: seq<Live>)
    requires Holding(banks, live, r, kind, sizes, hphys, runs, |sizes|)
    ensures |runs| == |sizes|
  {
  }

  // ---------------------------------------------------------- orders and sizes

  lemma MultipleIsExact(sz: nat, order: nat)
    requires sz % Pow2(order) == 0
    ensures Exact(Alloced(order), sz)
  {
  }

  lemma SlotIsMultiple(x: Range, i: nat, align: nat)
    requires Mapped(x) && i < |x.data.maps| && (x.hi - x.lo) % Pow2(align) == 0 && align <= x.data.order
    ensures SlotSize(x, i) > 0 && SlotSize(x, i) % Pow2(align) == 0
  {
    hide Pow2, SlotSize, SlotOffset;
    SlotsTile(x, i);
    SlotSizeIs(x, i);
    Pow2Divides(align, x.data.order);
    var m, big, size := Pow2(align), Pow2(x.data.order), x.hi - x.lo;
    DivisibleLess(size, i, big, m);
  }

  lemma SlotSizeIs(x: Range, i: nat)
    requires Mapped(x) && i < |x.data.maps|
    ensures SlotSize(x, i) == if x.hi - x.lo - i * Pow2(x.data.order) < Pow2(x.data.order)
                              then x.hi - x.lo - i * Pow2(x.data.order) else Pow2(x.data.order)
  {
  }

  lemma DivisibleLess(size: int, i: nat, big: nat, m: nat)
    requires m > 0 && size % m == 0 && big % m == 0
    ensures (size - i * big) % m == 0
  {
    var a, b := size / m, big / m;
    assert size == m * a && big == m * b;
    assert i * (m * b) == m * (i * b);
    assert m * a - m * (i * b) == m * (a - i * b);
    MulMod(a - i * b, m);
  }

  lemma PagesOfPow2(order: nat)
    requires order >= PAGE_SHIFT
    ensures SizeToPage(Pow2(order)) == Step(order)
  {
    PageTimesStep(order);
    MulMod(Step(order), PAGE_SIZE);
  }

  lemma RoundUpPow2(order: nat, align: nat)
    requires order < align
    ensures RoundUp(Pow2(order), align) == Pow2(align)
  {
    hide Pow2;
    Pow2Grows(order, align);
    SmallMod(Pow2(order), Pow2(align));
  }

  lemma SmallMod(a: nat, m: nat)
    requires a < m
    ensures a % m == a
  {
  }

  lemma TooSmallSlot(x: Range, align: nat)
    requires Mapped(x) && (x.hi - x.lo) % Pow2(align) == 0 && PAGE_SHIFT <= x.data.order < align
    ensures |x.data.maps| > 0 && SlotSize(x, 0) == Pow2(x.data.order) && !Exact(Alloced(align), Pow2(x.data.order))
  {
    hide SlotSize, SlotOffset, Pow2, RoundUp, SizeToPage;
    SlotCountBounds(x.hi - x.lo, x.data.order, 0);
    SlotSizeIs(x, 0);
    AtLeastOne(x.hi - x.lo, Pow2(align));
    Pow2Grows(x.data.order, align);
    RoundUpPow2(x.data.order, align);
    PagesOfPow2(x.data.order);
    PagesOfPow2(align);
    Pow2Grows(x.data.order - PAGE_SHIFT, align - PAGE_SHIFT);
  }

  lemma AtLeastOne(a: nat, m: nat)
    requires a > 0 && m > 0 && a % m == 0
    ensures a >= m
  {
  }

  /** What the code has established of a region before it acquires RAM for it. */
  ghost predicate Configured(kind: Kind, x: Range) {
    && Mapped(x) && PAGE_SHIFT <= x.data.order
    && match kind
       case Reserved => true
       case Alloced(align) => (x.hi - x.lo) % Pow2(align) == 0
       case Colored(_, num, _, order, _) =>
         num > 0 && order == x.data.order && order < BITS_PER_LONG && (x.hi - x.lo) % Pow2(order) == 0
  }

  /** The slots of an allocated region are not smaller than its alignment. */
  predicate Suits(kind: Kind, x: Range) {
    kind.Alloced? ==> kind.order <= x.data.order
  }

  /** In a coloured region every slot is one block of the colour policy. */
  lemma ColoredIsExact(x: Range, kind: Kind, i: nat)
    requires Mapped(x) && i < |x.data.maps| && kind.Colored? && kind.order == x.data.order && (x.hi - x.lo) % Pow2(kind.order) == 0
    ensures SlotSize(x, i) == Pow2(kind.order) && Exact(kind, SlotSize(x, i))
  {
    hide Pow2, SlotSize, SlotOffset;
    SlotsTile(x, i);
    SlotIsMultiple(x, i, kind.order);
    WholeMultiple(SlotSize(x, i), Pow2(kind.order));
  }

  lemma WholeMultiple(a: int, m: nat)
    requires 0 < a <= m && a % m == 0
    ensures a == m
  {
  }

  /** The sizes of the slots of a region. */
  function SlotSizes(x: Range): (sizes: seq<nat>)
    requires Mapped(x)
    ensures |sizes| == |x.data.maps| && forall i | 0 <= i < |sizes| :: sizes[i] == SlotSize(x, i)
  {
    seq(|x.data.maps|, i requires 0 <= i < |x.data.maps| => SizeOfSlot(x, i))
  }

  function SizeOfSlot(x: Range, i: nat): (n: nat)
    requires Mapped(x) && i < |x.data.maps|
    ensures n == SlotSize(x, i)
  {
    SlotsTile(x, i);
    SlotSize(x, i)
  }

  lemma SlotIsWellFormed(kind: Kind, x: Range, i: nat)
    requires Configured(kind, x) && i < |x.data.maps|
    ensures SlotSize(x, i) >= 0 && WellFormed(kind, SlotSize(x, i)) && (Suits(kind, x) ==> Exact(kind, SlotSize(x, i)))
  {
    hide Exact, SlotSize, Pow2;
    SlotsTile(x, i);
    match kind
    case Reserved => ReservedIsExact(SlotSize(x, i));
    case Alloced(align) =>
      if align <= x.data.order {
        SlotIsMultiple(x, i, align);
        MultipleIsExact(SlotSize(x, i), align);
      }
    case Colored(_, _, _, _, _) => ColoredIsExact(x, kind, i);
  }

  lemma ReservedIsExact(sz: nat)
    ensures Exact(Reserved, sz)
  {
  }

  /**
    The slots of a region give back exactly the frames they took if and only if they are not smaller than the
    alignment: a slot that is smaller is rounded up when it is allocated, but not when it is freed.
   */
  lemma ConservedExactly(kind: Kind, x: Range)
    requires Configured(kind, x)
    ensures AllWellFormed(kind, SlotSizes(x)) && |SlotSizes(x)| > 0
    ensures Suits(kind, x) ==> forall i | 0 <= i < |SlotSizes(x)| :: Exact(kind, SlotSizes(x)[i])
    ensures !Suits(kind, x) ==> !Exact(kind, SlotSizes(x)[0])
  {
    hide Exact, SlotSize, Pow2, WellFormed;
    forall i | 0 <= i < |SlotSizes(x)|
      ensures WellFormed(kind, SlotSizes(x)[i]) && (Suits(kind, x) ==> Exact(kind, SlotSizes(x)[i]))
    {
      SlotIsWellFormed(kind, x, i);
    }
    SlotCountBounds(x.hi - x.lo, x.data.order, 0);
    if !Suits(kind, x) {
      TooSmallSlot(x, kind.order);
    }
  }

  /**
    Adds the RAM of a region and deletes the region again.  Every bank is then as it was if and only if the
    slots are not smaller than the alignment, or not even the first of them can be served.
   */
  method AddThenDelete(ram: HostRam, ghost r0: Ram, kind: Kind, x: Range, hphys: array<nat>, held: array<bool>)
    returns (ok: bool)
    requires Ready(ram, r0) && Configured(kind, x)
    requires hphys.Length == held.Length == |x.data.maps| && hphys !in ram.Bitmaps() && held !in ram.Bitmaps()
    requires forall i | 0 <= i < held.Length :: !held[i]
    modifies ram.banks, ram.Bitmaps(), hphys, held
    ensures ram.Valid() && hphys.Length > 0
    ensures ok <==> Fits(ram.banks, r0, kind, SlotSizes(x), old(hphys[..]))
    ensures Matches(ram, r0) <==>
            Suits(kind, x) || !Served(ram.banks, r0.banks, kind, 0, old(hphys[..])[0], SlotSizes(x)[0])
  {
    hide Exact, Pow2, Inv, AllPadded, Holding, WellFormed, SameShape, Configured, Suits, Served, Chain, Stuck, Fits;
    assert Mapped(x) by { ConfiguredIsMapped(kind, x); }
    var sizes := SlotSizes(x);
    ConservedExactly(kind, x);
    ghost var r, runs;
    ghost var hphys0 := hphys[..];
    ok, r, runs := AcquireAll(ram, r0, kind, sizes, hphys, held);
    FirstIsServed(ram.banks, r0, kind, sizes, hphys0, hphys[..], runs);
    if ok {
      HoldingLength(ram.banks, r0.live, r, kind, sizes, hphys[..], runs);
      ReleaseAll(ram, r0, r, kind, sizes, hphys, held, runs);
    }
    assert runs != [] && !Suits(kind, x) ==> !Exact(kind, sizes[0]);
  }

  lemma Orders()
    ensures Pow2(12) == 0x1000 && Pow2(14) == 0x4000
  {
    assert Pow2(8) == 256;
  }

  /** Four pages in slots of one page. */
  const FOUR_PAGES: Range := Item(0, 0x4000, Region({Real, Memory}, 0, 12, [0, 0, 0, 0]))

  /**
    A region of four pages with align_order 14 and map_order 12: each slot takes four frames and gives one back, so
    a bank that has room for the first one is not restored.
   */
  lemma SmallSlotsLeak(banks: seq<RamBank>, frames: nat, pa: nat)
    requires |banks| == 1 && frames >= 4
    ensures Configured(Alloced(14), FOUR_PAGES) && !Suits(Alloced(14), FOUR_PAGES) && SlotSizes(FOUR_PAGES)[0] == 0x1000
    ensures FramesFor(Alloced(14), 0x1000) == 4 && SizeToPage(0x1000) == 1
    ensures Served(banks, [FreshBank(0, frames)], Alloced(14), 0, pa, 0x1000)
  {
    hide Pow2;
    Orders();
    assert SlotSize(FOUR_PAGES, 0) == 0x1000;
    var b := FreshBank(0, frames);
    assert FitsAt(b, 14, 4, Any, 0);
    assert Offers([b][0], 14, FramesFor(Alloced(14), 0x1000), Any);
  }

  lemma ConfiguredIsMapped(kind: Kind, x: Range)
    requires Configured(kind, x)
    ensures Mapped(x)
  {
  }
}
