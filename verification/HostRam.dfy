/** The frame allocator's operations, on bitmaps that are changed in place. */
module HostRam {
  import opened Bits
  import opened FrameBits
  import opened HostRamSpec
  import opened HostRamRuns

  class RamBank {
    const start: nat
    const frames: nat
    const bmap: array<bool>
    var free: int

    ghost function Value(): Bank
      reads this, bmap
    {
      Bank(start, frames, bmap[..], free)
    }

    /** A bank with all frames free; the words of the bitmap may reach past its end. */
    constructor (start: nat, frames: nat)
      requires start % PAGE_SIZE == 0
      ensures Value() == FreshBank(start, frames) && fresh(bmap) && Shaped(Value()) && Counted(Value())
    {
      this.start, this.frames, this.free := start, frames, frames;
      bmap := new bool[BitmapBits(frames)](_ => false);
      new;
      assert bmap[..] == FreshBank(start, frames).bits;
      FreshBankIs(start, frames);
    }

    method IsSet(i: nat) returns (set_: bool)
      ensures set_ <==> !(i < bmap.Length && !bmap[i])
    {
      set_ := i >= bmap.Length || bmap[i];
    }

    /** How many of the `cnt` bits from `pos` on are clear before the first one that is not? */
    method CountFree(pos: nat, cnt: nat) returns (n: nat)
      requires pos <= bmap.Length
      ensures n <= cnt && (n == cnt <==> RunFree(bmap[..], pos, cnt))
    {
      n := 0;
      while n < cnt
        invariant n <= cnt && pos + n <= bmap.Length && forall i | pos <= i < pos + n :: !bmap[i]
      {
        var taken := IsSet(pos + n);
        if taken {
          assert pos + n >= bmap.Length || bmap[..][pos + n];
          return;
        }
        n := n + 1;
      }
    }

    /** The lowest aligned frame at which a free run begins that the colour policy accepts. */
    method FindRun(order: nat, cnt: nat, accepts: nat -> bool) returns (found: bool, pos: nat)
      requires Shaped(Value()) && order >= PAGE_SHIFT
      ensures found ==> FirstFit(Value(), order, cnt, accepts, pos)
      ensures !found ==> forall q: nat :: !FitsAt(Value(), order, cnt, accepts, q)
    {
      hide Pow2, Clear, RunFree, SizeToPage, Aligned, Address;
      var step := Step(order);
      ghost var first := First(start, order);
      ghost var k := 0;
      pos := start % Pow2(order);
      if pos != 0 {
        pos := SizeToPage(Pow2(order) - pos);
      }
      NothingBefore(Value(), order, cnt, accepts, 0);
      while pos < frames
        invariant pos == At(first, step, k)
        invariant forall q: nat | q < pos :: !FitsAt(Value(), order, cnt, accepts, q)
        decreases frames - pos
      {
        CandidatesAreAligned(start, order, k);
        var n := CountFree(pos, cnt);
        if n == cnt && accepts(Address(start, pos)) {
          return true, pos;
        }
        assert !FitsAt(Value(), order, cnt, accepts, pos);
        NextCandidate(first, step, k);
        NothingBefore(Value(), order, cnt, accepts, k + 1);
        pos, k := pos + step, k + 1;
      }
      found := false;
    }

    method Mark(pos: nat, cnt: nat, value: bool)
      requires pos + cnt <= bmap.Length
      modifies bmap
      ensures bmap[..] == SetRun(old(bmap[..]), pos, cnt, value)
    {
      for i := pos to pos + cnt
        invariant forall j | 0 <= j < bmap.Length :: bmap[j] == if pos <= j < i then value else old(bmap[j])
      {
        bmap[i] := value;
      }
    }

    method Take(pos: nat, cnt: nat)
      requires RunFree(bmap[..], pos, cnt)
      modifies this`free, bmap
      ensures Value() == Taken(old(Value()), pos, cnt)
    {
      Mark(pos, cnt, true);
      free := free - cnt;
    }

    method Release(pos: nat, cnt: nat)
      requires pos + cnt <= bmap.Length
      modifies this`free, bmap
      ensures Value() == Freed(old(Value()), pos, cnt)
    {
      Mark(pos, cnt, false);
      free := free + cnt;
    }
  }

  /** Between the places of the search nothing fits. */
  lemma NothingBefore(b: Bank, order: nat, cnt: nat, accepts: nat -> bool, k: nat)
    requires Shaped(b) && order >= PAGE_SHIFT
    ensures forall q: nat | q < At(First(b.start, order), Step(order), k)
                            && (k > 0 ==> At(First(b.start, order), Step(order), k - 1) < q) ::
              !FitsAt(b, order, cnt, accepts, q)
  {
    forall q: nat | q < At(First(b.start, order), Step(order), k) && (k > 0 ==> At(First(b.start, order), Step(order), k - 1) < q)
      ensures !FitsAt(b, order, cnt, accepts, q)
    {
      NoneBetween(b.start, order, k, q);
    }
  }

  /** The frames of a range that lies inside a bank. */
  lemma FramesInside(start: nat, frames: nat, pa: nat, sz: nat)
    requires start <= pa && pa + sz <= start + frames * PAGE_SIZE
    ensures FrameOf(start, pa) + SizeToPage(sz) <= frames
  {
  }

  datatype Rc = Ok | Invalid | NoSpace

  class HostRam {
    const banks: seq<RamBank>

    constructor (banks: seq<RamBank>)
      ensures this.banks == banks
    {
      this.banks := banks;
    }

    ghost function Bitmaps(): set<object> {
      set b | b in banks :: b.bmap
    }

    /** The banks as values. */
    ghost function Values(): (v: seq<Bank>)
      reads banks, Bitmaps()
      ensures |v| == |banks| && forall i | 0 <= i < |banks| :: v[i] == banks[i].Value()
    {
      seq(|banks|, i requires 0 <= i < |banks| reads banks, Bitmaps() => banks[i].Value())
    }

    /** The banks are different, and so are their bitmaps. */
    ghost predicate Valid()
      reads banks, Bitmaps()
    {
      && (forall i, j | 0 <= i < j < |banks| :: banks[i] != banks[j] && banks[i].bmap != banks[j].bmap)
      && forall i | 0 <= i < |banks| :: Shaped(banks[i].Value())
    }

    /** The first bank that offers a run, and the first run there. */
    method FindBank(order: nat, cnt: nat, accepts: nat -> bool) returns (found: bool, bank: nat, pos: nat)
      requires Valid() && order >= PAGE_SHIFT
      ensures !found ==> forall i | 0 <= i < |banks| :: !Offers(Values()[i], order, cnt, accepts)
      ensures found ==> bank < |banks| && FirstOffer(Values(), order, cnt, accepts, bank, pos)
    {
      hide FitsAt;
      for i := 0 to |banks|
        invariant forall j | 0 <= j < i :: !Offers(Values()[j], order, cnt, accepts)
      {
        assert Values()[i] == banks[i].Value();
        if banks[i].free < cnt {
          continue;
        }
        found, pos := banks[i].FindRun(order, cnt, accepts);
        if found {
          assert FitsAt(Values()[i], order, cnt, accepts, pos);
          return true, i, pos;
        }
      }
      return false, 0, 0;
    }

    method Mark(bank: nat, pos: nat, cnt: nat, value: bool)
      requires Valid() && bank < |banks| && pos + cnt <= banks[bank].bmap.Length
      requires value ==> RunFree(banks[bank].bmap[..], pos, cnt)
      modifies banks, Bitmaps()
      ensures Valid()
      ensures Values() == old(Values())[bank := if value then Taken(old(Values())[bank], pos, cnt) else Freed(old(Values())[bank], pos, cnt)]
    {
      hide SetRun, RunFree;
      var b := banks[bank];
      if value {
        b.Take(pos, cnt);
      } else {
        b.Release(pos, cnt);
      }
      assert forall i | 0 <= i < |banks| && i != bank :: banks[i].Value() == old(banks[i].Value());
    }

    /**
      Allocates `sz` bytes, rounded up to the alignment: from the first bank that offers a run, the first such run.
      It fails only if no bank offers one.
     */
    method AllocAccepted(sz: nat, order: nat, accepts: nat -> bool) returns (got: nat, pa: nat, ghost bank: nat, ghost pos: nat)
      requires Valid()
      modifies banks, Bitmaps()
      ensures Valid()
      ensures got == 0 ==> Values() == old(Values())
      ensures got == 0 <==> sz == 0 || order < PAGE_SHIFT || order >= BITS_PER_LONG
                            || forall i | 0 <= i < |banks| :: !Offers(old(Values())[i], order, SizeToPage(RoundUp(sz, order)), accepts)
      ensures got > 0 ==> got == RoundUp(sz, order) && bank < |banks| && pa == Address(banks[bank].start, pos)
                          && FirstOffer(old(Values()), order, SizeToPage(got), accepts, bank, pos)
      ensures got > 0 ==> sz <= got < sz + Pow2(order) && got % Pow2(order) == 0 && pa % Pow2(order) == 0 && accepts(pa)
      ensures got > 0 ==> pa == banks[bank].start + pos * PAGE_SIZE && got == SizeToPage(got) * PAGE_SIZE && bank < |banks|
                          && Values() == old(Values())[bank := Taken(old(Values())[bank], pos, SizeToPage(got))]
      ensures got > 0 ==> forall live :: StepOf(Ram(old(Values()), live), Event.Alloc(bank, order, SizeToPage(got), accepts, pos),
                                                Ram(Values(), live + {Live(bank, pos, SizeToPage(got), order)}))
    {
      hide FirstFit, Offers, SizeToPage, Taken, RoundUp, RunFree, Pow2;
      bank, pos := 0, 0;
      if sz == 0 || order < PAGE_SHIFT || BITS_PER_LONG <= order {
        return 0, 0, 0, 0;
      }
      var size := RoundUp(sz, order);
      var cnt := SizeToPage(size);
      var found, i, at := FindBank(order, cnt, accepts);
      if !found {
        return 0, 0, 0, 0;
      }
      RoundUpGrows(sz, order);
      RoundUpIs(sz, order);
      WholePages(size, order);
      FirstFitSuits(Values()[i], order, cnt, accepts, at);
      FirstFitIsFree(Values()[i], order, cnt, accepts, at);
      Mark(i, at, cnt, true);
      return size, Address(banks[i].start, at), i, at;
    }

    method Alloc(sz: nat, order: nat) returns (got: nat, pa: nat, ghost bank: nat, ghost pos: nat)
      requires Valid()
      modifies banks, Bitmaps()
      ensures Valid()
      ensures got == 0 ==> Values() == old(Values())
      ensures got == 0 <==> sz == 0 || order < PAGE_SHIFT || order >= BITS_PER_LONG
                            || forall i | 0 <= i < |banks| :: !Offers(old(Values())[i], order, SizeToPage(RoundUp(sz, order)), Any)
      ensures got > 0 ==> got == RoundUp(sz, order) && bank < |banks| && pa == Address(banks[bank].start, pos)
                          && FirstOffer(old(Values()), order, SizeToPage(got), Any, bank, pos)
                          && sz <= got < sz + Pow2(order) && got % Pow2(order) == 0 && pa % Pow2(order) == 0
                          && Values() == old(Values())[bank := Taken(old(Values())[bank], pos, SizeToPage(got))]
      ensures got > 0 ==> forall live :: StepOf(Ram(old(Values()), live), Event.Alloc(bank, order, SizeToPage(got), Any, pos),
                                                Ram(Values(), live + {Live(bank, pos, SizeToPage(got), order)}))
    {
      hide FirstOffer, Offers, SizeToPage, Taken, RoundUp, StepOf;
      got, pa, bank, pos := AllocAccepted(sz, order, Any);
    }

    /** Allocates one block of the colour, whose size and alignment the colour policy sets. */
    method ColorAlloc(color: nat, colors: nat, order: nat, matches: (nat, nat, nat) -> bool)
      returns (got: nat, pa: nat, ghost bank: nat, ghost pos: nat)
      requires Valid() && PAGE_SHIFT <= order < BITS_PER_LONG
      modifies banks, Bitmaps()
      ensures Valid()
      ensures got == 0 ==> Values() == old(Values())
      ensures got == 0 <==> colors <= color
                            || forall i | 0 <= i < |banks| ::
                                 !Offers(old(Values())[i], order, SizeToPage(Pow2(order)), OfColor(matches, order, color))
      ensures got > 0 ==> got == Pow2(order) && bank < |banks| && pa == Address(banks[bank].start, pos)
                          && FirstOffer(old(Values()), order, SizeToPage(got), OfColor(matches, order, color), bank, pos)
                          && matches(pa, got, color) && pa % got == 0
                          && Values() == old(Values())[bank := Taken(old(Values())[bank], pos, SizeToPage(got))]
      ensures got > 0 ==> forall live :: StepOf(Ram(old(Values()), live),
                                                Event.Alloc(bank, order, SizeToPage(got), OfColor(matches, order, color), pos),
                                                Ram(Values(), live + {Live(bank, pos, SizeToPage(got), order)}))
    {
      hide FirstOffer, Offers, SizeToPage, Taken, OfColor, Pow2, StepOf;
      if colors <= color {
        return 0, 0, 0, 0;
      }
      RoundUpExact(order);
      got, pa, bank, pos := AllocAccepted(Pow2(order), order, OfColor(matches, order, color));
      ColorMatches(matches, order, color, pa);
    }

    /** The first bank that holds the whole range. */
    method FindHolder(pa: nat, sz: nat) returns (found: bool, bank: nat)
      ensures found ==> bank < |banks| && Holds(banks[bank], pa, sz) && forall i | 0 <= i < bank :: !Holds(banks[i], pa, sz)
      ensures !found ==> forall i | 0 <= i < |banks| :: !Holds(banks[i], pa, sz)
    {
      for i := 0 to |banks|
        invariant forall j | 0 <= j < i :: !Holds(banks[j], pa, sz)
      {
        if pa < banks[i].start || banks[i].start + banks[i].frames * PAGE_SIZE < pa + sz {
          continue;
        }
        return true, i;
      }
      return false, 0;
    }

    /**
      Takes the frames that a range counts for, which must all be free.  These are all the frames it touches
      exactly if the range is `Whole`.
     */
    method Reserve(pa: nat, sz: nat) returns (rc: Rc, ghost bank: nat, ghost pos: nat)
      requires Valid()
      modifies banks, Bitmaps()
      ensures Valid()
      ensures rc == Invalid <==> forall i | 0 <= i < |banks| :: !Holds(banks[i], pa, sz)
      ensures rc != Invalid ==> bank < |banks| && Holds(banks[bank], pa, sz) && pos == FrameOf(banks[bank].start, pa)
                                && pos + SizeToPage(sz) <= banks[bank].frames && forall i | 0 <= i < bank :: !Holds(banks[i], pa, sz)
      ensures rc == Ok ==> RunFree(old(Values())[bank].bits, pos, SizeToPage(sz)) && SizeToPage(sz) <= old(Values())[bank].free
                           && Values() == old(Values())[bank := Taken(old(Values())[bank], pos, SizeToPage(sz))]
      ensures rc == NoSpace ==> !RunFree(old(Values())[bank].bits, pos, SizeToPage(sz)) || old(Values())[bank].free < SizeToPage(sz)
      ensures rc != Ok ==> Values() == old(Values())
      ensures rc == Ok && sz > 0 ==>
                && (forall live :: StepOf(Ram(old(Values()), live), Event.Reserve(bank, pa, sz),
                                          Ram(Values(), live + {Live(bank, pos, SizeToPage(sz), PAGE_SHIFT)})))
                && ((forall a: nat | pa <= a < pa + sz :: pos <= FrameOf(banks[bank].start, a) < pos + SizeToPage(sz))
                    <==> Whole(banks[bank].start, pa, sz))
    {
      hide SizeToPage, Taken, RunFree, FrameOf, Whole;
      bank, pos := 0, 0;
      var found, i := FindHolder(pa, sz);
      if !found {
        return Invalid, 0, 0;
      }
      var at, cnt := FrameOf(banks[i].start, pa), SizeToPage(sz);
      FramesInside(banks[i].start, banks[i].frames, pa, sz);
      if banks[i].free < cnt {
        return NoSpace, i, at;
      }
      var n := banks[i].CountFree(at, cnt);
      if n != cnt {
        return NoSpace, i, at;
      }
      Mark(i, at, cnt, true);
      if sz > 0 {
        CountedFramesAreTouched(banks[i].start, pa, sz);
      }
      return Ok, i, at;
    }

    /** Gives the frames that a range counts for back; that they are in use is not checked. */
    method Free(pa: nat, sz: nat) returns (rc: Rc, ghost bank: nat, ghost pos: nat)
      requires Valid()
      modifies banks, Bitmaps()
      ensures Valid() && rc != NoSpace
      ensures rc == Invalid <==> forall i | 0 <= i < |banks| :: !Holds(banks[i], pa, sz)
      ensures rc == Invalid ==> Values() == old(Values())
      ensures rc == Ok ==> bank < |banks| && Holds(banks[bank], pa, sz) && pos == FrameOf(banks[bank].start, pa)
                           && (forall i | 0 <= i < bank :: !Holds(banks[i], pa, sz))
                           && pos + SizeToPage(sz) <= banks[bank].frames
                           && Values() == old(Values())[bank := Freed(old(Values())[bank], pos, SizeToPage(sz))]
      ensures rc == Ok ==> forall live, l: Live | l in live && l.bank == bank && l.pos == pos && l.cnt == SizeToPage(sz) ::
                             StepOf(Ram(old(Values()), live), Event.Free(l), Ram(Values(), live - {l}))
    {
      hide SizeToPage, Freed, FrameOf;
      bank, pos := 0, 0;
      var found, i := FindHolder(pa, sz);
      if !found {
        return Invalid, 0, 0;
      }
      var at, cnt := FrameOf(banks[i].start, pa), SizeToPage(sz);
      FramesInside(banks[i].start, banks[i].frames, pa, sz);
      Mark(i, at, cnt, false);
      return Ok, i, at;
    }
  }

  /** The first bank that offers a run, and its lowest one. */
  ghost predicate FirstOffer(v: seq<Bank>, order: nat, cnt: nat, accepts: nat -> bool, bank: nat, pos: nat) {
    && bank < |v| && Offers(v[bank], order, cnt, accepts) && FirstFit(v[bank], order, cnt, accepts, pos)
    && forall i | 0 <= i < bank :: !Offers(v[i], order, cnt, accepts)
  }

  /** The run begins at an aligned address that is accepted. */
  lemma FirstFitSuits(b: Bank, order: nat, cnt: nat, accepts: nat -> bool, pos: nat)
    requires FirstFit(b, order, cnt, accepts, pos)
    ensures Address(b.start, pos) % Pow2(order) == 0 && accepts(Address(b.start, pos))
  {
  }

  lemma ColorMatches(matches: (nat, nat, nat) -> bool, order: nat, color: nat, pa: nat)
    ensures OfColor(matches, order, color)(pa) <==> matches(pa, Pow2(order), color)
  {
  }

  /** Without a colour policy every frame will do. */
  const Any: nat -> bool := _ => true

  function OfColor(matches: (nat, nat, nat) -> bool, order: nat, color: nat): nat -> bool {
    (a: nat) => matches(a, Pow2(order), color)
  }

  lemma RoundUpExact(order: nat)
    ensures RoundUp(Pow2(order), order) == Pow2(order) && Pow2(order) > 0
  {
  }

  predicate Holds(b: RamBank, pa: nat, sz: nat) {
    b.start <= pa && pa + sz <= b.start + b.frames * PAGE_SIZE
  }

  lemma RoundUpGrows(sz: nat, order: nat)
    requires sz > 0
    ensures RoundUp(sz, order) > 0 && SizeToPage(RoundUp(sz, order)) > 0
  {
  }

  lemma FirstFitIsFree(b: Bank, order: nat, cnt: nat, accepts: nat -> bool, pos: nat)
    requires FirstFit(b, order, cnt, accepts, pos)
    ensures RunFree(b.bits, pos, cnt) && pos + cnt <= |b.bits|
  {
  }
}
