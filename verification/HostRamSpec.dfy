/**
  The frame allocator as a value: which frames a call takes, when that is right, and what every run keeps.
 */
module HostRamSpec {
  import opened Bits
  import opened Alignment
  import opened FrameBits

  const PAGE_SHIFT := 12
  const PAGE_SIZE: nat := 4096
  const BITS_PER_LONG := 64

  /** A bank of RAM: its bitmap may be longer than the bank, because it consists of whole words. */
  datatype Bank = Bank(start: nat, frames: nat, bits: seq<bool>, free: int)

  ghost predicate Shaped(b: Bank) {
    b.frames <= |b.bits| && b.start % PAGE_SIZE == 0
  }

  /** The free count is the number of clear bits. */
  ghost predicate Counted(b: Bank)
    requires Shaped(b)
  {
    b.free == Clear(b.bits[..b.frames])
  }

  /** The bits past the end of the bank are set. */
  ghost predicate Padded(b: Bank)
    requires Shaped(b)
  {
    forall i | b.frames <= i < |b.bits| :: b.bits[i]
  }

  function RoundUp(sz: nat, order: nat): (r: nat) {
    if sz % Pow2(order) != 0 then sz - sz % Pow2(order) + Pow2(order) else sz
  }

  function SizeToPage(sz: nat): nat {
    sz / PAGE_SIZE + if sz % PAGE_SIZE != 0 then 1 else 0
  }

  /** A size is rounded up to the next multiple of the alignment. */
  lemma RoundUpIs(sz: nat, order: nat)
    ensures RoundUp(sz, order) % Pow2(order) == 0 && sz <= RoundUp(sz, order) < sz + Pow2(order)
  {
    var m := Pow2(order);
    var q := sz / m;
    assert sz == m * q + sz % m;
    MulMod(q, m);
    MulMod(q + 1, m);
    assert m * (q + 1) == m * q + m;
  }

  /** As many pages as are needed to hold the bytes, and no more. */
  lemma SizeToPageIs(sz: nat)
    ensures sz <= SizeToPage(sz) * PAGE_SIZE < sz + PAGE_SIZE
  {
  }

  lemma WholePages(sz: nat, order: nat)
    requires order >= PAGE_SHIFT && sz % Pow2(order) == 0
    ensures SizeToPage(sz) * PAGE_SIZE == sz
  {
    hide Pow2;
    PagesAligned();
    Pow2Divides(PAGE_SHIFT, order);
    var k, m := sz / Pow2(order), Pow2(order) / PAGE_SIZE;
    assert sz == Pow2(order) * k && Pow2(order) == PAGE_SIZE * m;
    assert sz == PAGE_SIZE * (m * k);
    MulMod(m * k, PAGE_SIZE);
  }

  /** How many frames lie between two aligned ones, and the first aligned one. */
  function Step(order: nat): (n: nat)
    requires order >= PAGE_SHIFT
    ensures n > 0
  {
    Pow2(order - PAGE_SHIFT)
  }

  function First(start: nat, order: nat): nat {
    var off := start % Pow2(order);
    if off != 0 then SizeToPage(Pow2(order) - off) else 0
  }

  /** The position of the `k`-th aligned frame. */
  function At(first: nat, step: nat, k: nat): nat {
    first + k * step
  }

  function Address(start: nat, pos: nat): nat {
    start + pos * PAGE_SIZE
  }

  /** Frame `pos` of a bank starts at a multiple of `2^order`. */
  predicate Aligned(start: nat, order: nat, pos: nat) {
    Address(start, pos) % Pow2(order) == 0
  }

  lemma {:induction false} Pow2Splits(a: nat, b: nat)
    ensures Pow2(a + b) == Pow2(a) * Pow2(b)
  {
    if a > 0 {
      Pow2Splits(a - 1, b);
    }
  }

  lemma PageTimesStep(order: nat)
    requires order >= PAGE_SHIFT
    ensures PAGE_SIZE * Step(order) == Pow2(order)
  {
    Pow2Splits(PAGE_SHIFT, order - PAGE_SHIFT);
    assert Pow2(12) == 4096 by {
      assert Pow2(4) == 16;
      Pow2Splits(4, 4);
      Pow2Splits(8, 4);
    }
  }

  lemma NextMultiple(start: nat, p: nat, s: nat, m: nat)
    requires p > 0 && s > 0 && m == p * s && start % p == 0
    ensures (start + (m - start % m)) % m == 0 && (m - start % m) % p == 0
  {
    var q, e := start / m, start / p;
    assert start == m * q + start % m && start == p * e;
    assert start + (m - start % m) == m * (q + 1) by { assert m * (q + 1) == m * q + m; }
    MulMod(q + 1, m);
    PageMultiple(p, s, m, q, e);
    MulMod(s * (q + 1) - e, p);
  }

  lemma PageMultiple(p: int, s: int, m: int, q: int, e: int)
    requires m == p * s
    ensures m * (q + 1) - p * e == p * (s * (q + 1) - e)
  {
    assert p * s * (q + 1) == p * (s * (q + 1));
    assert p * (s * (q + 1) - e) == p * (s * (q + 1)) - p * e;
  }

  lemma FirstIsAligned(start: nat, order: nat)
    requires order >= PAGE_SHIFT && start % PAGE_SIZE == 0
    ensures (start + First(start, order) * PAGE_SIZE) % Pow2(order) == 0
  {
    hide Pow2;
    PageTimesStep(order);
    NextMultiple(start, PAGE_SIZE, Step(order), Pow2(order));
  }

  lemma StepsKeepMultiple(a: nat, m: nat, p: nat, s: nat, k: nat)
    requires m > 0 && m == p * s && a % m == 0
    ensures (a + k * s * p) % m == 0
  {
    var q := a / m;
    assert a == m * q;
    assert k * s * p == k * (s * p) == k * m == m * k;
    assert m * q + m * k == m * (q + k);
    MulMod(q + k, m);
  }

  /** Every frame the search looks at starts at an aligned address. */
  lemma CandidatesAreAligned(start: nat, order: nat, k: nat)
    requires order >= PAGE_SHIFT && start % PAGE_SIZE == 0
    ensures Aligned(start, order, At(First(start, order), Step(order), k))
  {
    hide Pow2, First;
    PageTimesStep(order);
    FirstIsAligned(start, order);
    var f, s := First(start, order), Step(order);
    StepsKeepMultiple(start + f * PAGE_SIZE, Pow2(order), PAGE_SIZE, s, k);
    assert Address(start, At(f, s, k)) == start + f * PAGE_SIZE + k * s * PAGE_SIZE;
  }

  /** The search begins less than one block behind the start of the bank. */
  lemma FirstIsClose(start: nat, order: nat)
    requires order >= PAGE_SHIFT && start % PAGE_SIZE == 0
    ensures Address(start, First(start, order)) < start + Pow2(order)
  {
    hide Pow2;
    PageTimesStep(order);
    NextMultiple(start, PAGE_SIZE, Step(order), Pow2(order));
  }

  lemma ByBlocks(a: nat, b: nat, p: nat, s: nat, m: nat)
    requires p > 0 && m == p * s && m > 0 && a <= b && (b * p - a * p) % m == 0
    ensures b == a + (b - a) / s * s
  {
    var d := (b * p - a * p) / m;
    assert b * p - a * p == p * (b - a) && p * (b - a) == m * d == p * (s * d);
    Cancel(p, b - a, s * d);
    assert s * d == d * s;
    MulMod(d, s);
  }

  lemma Cancel(p: nat, a: int, b: int)
    requires p > 0 && p * a == p * b
    ensures a == b
  {
    assert a < b ==> p * (b - a) >= p;
    assert b < a ==> p * (a - b) >= p;
  }

  lemma DifferenceOfMultiples(a: int, b: int, m: nat)
    requires m > 0 && a % m == 0 && b % m == 0
    ensures (b - a) % m == 0
  {
    assert a == m * (a / m) && b == m * (b / m);
    assert b - a == m * (b / m - a / m);
    MulMod(b / m - a / m, m);
  }

  /** Every aligned frame is one that the search looks at. */
  lemma AlignedAreCandidates(start: nat, order: nat, pos: nat) returns (k: nat)
    requires order >= PAGE_SHIFT && start % PAGE_SIZE == 0 && Aligned(start, order, pos)
    ensures pos == At(First(start, order), Step(order), k)
  {
    hide Pow2, First;
    var f, s, m := First(start, order), Step(order), Pow2(order);
    PageTimesStep(order);
    FirstIsAligned(start, order);
    FirstIsClose(start, order);
    if pos < f {
      MultiplesApart(Address(start, pos), Address(start, f), m);
      assert false;
    }
    DifferenceOfMultiples(Address(start, f), Address(start, pos), m);
    assert Address(start, pos) - Address(start, f) == pos * PAGE_SIZE - f * PAGE_SIZE;
    ByBlocks(f, pos, PAGE_SIZE, s, m);
    k := (pos - f) / s;
  }

  /** The frames the search looks at are exactly the aligned ones. */
  lemma CandidatesAreExact(start: nat, order: nat, pos: nat)
    requires order >= PAGE_SHIFT && start % PAGE_SIZE == 0
    ensures Aligned(start, order, pos) <==> exists k: nat :: pos == At(First(start, order), Step(order), k)
  {
    if Aligned(start, order, pos) {
      var k := AlignedAreCandidates(start, order, pos);
    }
    if k: nat :| pos == At(First(start, order), Step(order), k) {
      CandidatesAreAligned(start, order, k);
    }
  }

  // --------------------------------------------------------------- first fit

  /** At the aligned frame `pos` of the bank `cnt` clear bits begin, and the colour policy accepts them. */
  ghost predicate FitsAt(b: Bank, order: nat, cnt: nat, accepts: nat -> bool, pos: nat) {
    pos < b.frames && Aligned(b.start, order, pos) && RunFree(b.bits, pos, cnt) && accepts(Address(b.start, pos))
  }

  /** `pos` is the lowest aligned frame at which `cnt` clear bits begin that the colour policy accepts. */
  ghost predicate FirstFit(b: Bank, order: nat, cnt: nat, accepts: nat -> bool, pos: nat) {
    FitsAt(b, order, cnt, accepts, pos) && forall q: nat | q < pos :: !FitsAt(b, order, cnt, accepts, q)
  }

  /** A bank is searched if it counts enough free frames. */
  ghost predicate Offers(b: Bank, order: nat, cnt: nat, accepts: nat -> bool) {
    b.free >= cnt && exists pos: nat :: FitsAt(b, order, cnt, accepts, pos)
  }

  /** There is an aligned free run that lies inside the bank. */
  ghost predicate HasRoom(b: Bank, order: nat, cnt: nat, accepts: nat -> bool) {
    exists pos: nat :: FitsAt(b, order, cnt, accepts, pos) && pos + cnt <= b.frames
  }

  function Taken(b: Bank, pos: nat, cnt: nat): Bank {
    b.(bits := SetRun(b.bits, pos, cnt, true), free := b.free - cnt)
  }

  function Freed(b: Bank, pos: nat, cnt: nat): Bank {
    b.(bits := SetRun(b.bits, pos, cnt, false), free := b.free + cnt)
  }

  lemma AtGrows(first: nat, step: nat, j: nat, k: nat)
    requires j <= k
    ensures At(first, step, j) <= At(first, step, k)
  {
    assert (k - j) * step >= 0;
    assert k * step == j * step + (k - j) * step;
  }

  lemma NextCandidate(first: nat, step: nat, k: nat)
    ensures At(first, step, k + 1) == At(first, step, k) + step
  {
  }

  /** Between two frames that the search looks at, and before the first one, no frame is aligned. */
  lemma NoneBetween(start: nat, order: nat, k: nat, q: nat)
    requires order >= PAGE_SHIFT && start % PAGE_SIZE == 0
    requires q < At(First(start, order), Step(order), k) && (k > 0 ==> At(First(start, order), Step(order), k - 1) < q)
    ensures !Aligned(start, order, q)
  {
    hide Aligned, At;
    if Aligned(start, order, q) {
      var j := AlignedAreCandidates(start, order, q);
      if j < k {
        AtGrows(First(start, order), Step(order), j, k - 1);
      } else {
        AtGrows(First(start, order), Step(order), k, j);
      }
    }
  }

  /** The run that is found lies inside the bank exactly if some run does. */
  lemma FirstFitInside(b: Bank, order: nat, cnt: nat, accepts: nat -> bool, pos: nat)
    requires FirstFit(b, order, cnt, accepts, pos)
    ensures pos + cnt <= b.frames <==> HasRoom(b, order, cnt, accepts)
  {
    hide FitsAt;
    if q: nat :| FitsAt(b, order, cnt, accepts, q) && q + cnt <= b.frames {
      assert q >= pos;
    }
  }

  /** The free count never hides a bank that has room. */
  lemma RoomIsOffered(b: Bank, order: nat, cnt: nat, accepts: nat -> bool)
    requires Shaped(b) && Counted(b) && HasRoom(b, order, cnt, accepts)
    ensures Offers(b, order, cnt, accepts)
  {
    hide Clear;
    var pos: nat :| FitsAt(b, order, cnt, accepts, pos) && pos + cnt <= b.frames;
    RunFreeCount(b.bits, pos, cnt, b.frames);
  }

  /** With the bits past the end set, every run that fits lies inside the bank. */
  lemma PaddedIsInside(b: Bank, order: nat, cnt: nat, accepts: nat -> bool, pos: nat)
    requires Shaped(b) && Padded(b) && FitsAt(b, order, cnt, accepts, pos)
    ensures pos + cnt <= b.frames
  {
    assert b.frames < |b.bits| ==> b.bits[b.frames];
  }

  /** With right counts and padding, a bank is taken from exactly if an aligned free run lies inside it. */
  lemma OfferedExactly(b: Bank, order: nat, cnt: nat, accepts: nat -> bool)
    requires Shaped(b) && Counted(b) && Padded(b)
    ensures Offers(b, order, cnt, accepts) <==> HasRoom(b, order, cnt, accepts)
  {
    hide FitsAt;
    if pos: nat :| FitsAt(b, order, cnt, accepts, pos) {
      PaddedIsInside(b, order, cnt, accepts, pos);
    }
    if HasRoom(b, order, cnt, accepts) {
      RoomIsOffered(b, order, cnt, accepts);
    }
  }

  /** Taking a free run keeps the free count right exactly if the run ends inside the bank. */
  lemma TakeKeepsCount(b: Bank, pos: nat, cnt: nat)
    requires Shaped(b) && Counted(b) && RunFree(b.bits, pos, cnt) && pos < b.frames
    ensures Counted(Taken(b, pos, cnt)) <==> pos + cnt <= b.frames
  {
    hide Clear, SetRun;
    if pos + cnt <= b.frames {
      RunFreeCount(b.bits, pos, cnt, b.frames);
      SetRunClear(b.bits, pos, cnt, true, b.frames);
    } else {
      var n := b.frames - pos;
      RunFreeCount(b.bits, pos, n, b.frames);
      SetRunClear(b.bits, pos, n, true, b.frames);
      SetRunBeyond(b.bits, pos, cnt, b.frames);
    }
  }

  lemma SetRunBeyond(bits: seq<bool>, pos: nat, cnt: nat, n: nat)
    requires pos <= n <= pos + cnt && n <= |bits|
    ensures SetRun(bits, pos, cnt, true)[..n] == SetRun(bits, pos, n - pos, true)[..n]
  {
  }

  /** Freeing keeps the free count right exactly if every frame of the run was in use. */
  lemma FreeKeepsCount(b: Bank, pos: nat, cnt: nat)
    requires Shaped(b) && Counted(b) && pos + cnt <= b.frames
    ensures Counted(Freed(b, pos, cnt)) <==> RunSet(b.bits, pos, cnt)
  {
    hide Clear, SetRun;
    SetRunClear(b.bits, pos, cnt, false, b.frames);
    RunSetCount(b.bits, pos, cnt);
  }

  /** Taking and freeing the same run restores the bank. */
  lemma TakeThenFree(b: Bank, pos: nat, cnt: nat)
    requires RunFree(b.bits, pos, cnt)
    ensures Freed(Taken(b, pos, cnt), pos, cnt) == b
  {
    assert Freed(Taken(b, pos, cnt), pos, cnt).bits == b.bits;
  }

  // --------------------------------------------------------------- new banks

  /** A bitmap consists of whole words. */
  function BitmapBits(frames: nat): (n: nat)
    ensures frames <= n < frames + BITS_PER_LONG
  {
    AlignUp(frames, BITS_PER_LONG)
  }

  /** A bank with all frames free; the bits of the last word past its end are clear as well. */
  function FreshBank(start: nat, frames: nat): Bank {
    Bank(start, frames, seq(BitmapBits(frames), _ => false), frames)
  }

  /** The bits past the end of a new bank are set exactly if there are none: if its frames fill whole words. */
  lemma FreshBankIs(start: nat, frames: nat)
    requires start % PAGE_SIZE == 0
    ensures Shaped(FreshBank(start, frames)) && Counted(FreshBank(start, frames))
    ensures Padded(FreshBank(start, frames)) <==> frames % BITS_PER_LONG == 0
  {
    var b := FreshBank(start, frames);
    ClearConstant(b.bits[..frames], false);
    AlignUpAligned(frames, BITS_PER_LONG);
    if frames % BITS_PER_LONG == 0 {
      AlignUpLeast(frames, BITS_PER_LONG, frames);
    } else {
      assert frames < |b.bits| && !b.bits[frames];
    }
  }

  /** A free that matches no allocation: one frame of an unused bank is freed, and the count exceeds the bank. */
  lemma FreeSpoilsTheCount(start: nat, frames: nat)
    requires start % PAGE_SIZE == 0 && frames > 0
    ensures Shaped(FreshBank(start, frames)) && Counted(FreshBank(start, frames))
    ensures !Counted(Freed(FreshBank(start, frames), 0, 1)) && Freed(FreshBank(start, frames), 0, 1).free == frames + 1
  {
    hide Clear;
    FreshBankIs(start, frames);
    FreeKeepsCount(FreshBank(start, frames), 0, 1);
  }

  lemma SmallCounts()
    ensures Clear([false, true]) == 1 && Clear([false, false]) == 2
  {
    assert [false, true][..1] == [false] && [false, false][..1] == [false];
    assert Clear([false]) == 1;
  }

  lemma SmallRuns(bits: seq<bool>)
    requires |bits| >= 5 && forall i | 0 <= i < |bits| :: bits[i] <==> i == 1
    ensures !RunFree(bits, 0, 3) && !RunFree(bits, 1, 3) && RunFree(bits, 2, 3)
    ensures bits[..4] == [false, true] + [false, false]
  {
    assert bits[1];
  }

  /**
    Without padding the search runs past the end: of the four frames of this bank three are free, but no three
    in a row; the request is still granted, and one of the frames does not exist.
   */
  lemma OverrunsTheBank(bits: seq<bool>) returns (b: Bank)
    requires |bits| == BitmapBits(4) && forall i | 0 <= i < |bits| :: bits[i] <==> i == 1
    ensures b.bits == bits && Shaped(b) && Counted(b) && b.frames == 4 && !HasRoom(b, PAGE_SHIFT, 3, _ => true)
    ensures Offers(b, PAGE_SHIFT, 3, _ => true) && FirstFit(b, PAGE_SHIFT, 3, _ => true, 2) && 2 + 3 > b.frames
    ensures !Counted(Taken(b, 2, 3))
  {
    hide Clear, RunFree, Pow2, SetRun;
    b := Bank(0, 4, bits, 3);
    assert |bits| >= 5 by { AlignUpAligned(4, BITS_PER_LONG); }
    SmallRuns(bits);
    ClearConcat([false, true], [false, false]);
    SmallCounts();
    PagesAligned();
    forall k: nat ensures FitsAt(b, PAGE_SHIFT, 3, _ => true, k) <==> k < 4 && RunFree(bits, k, 3) {
      MulMod(k, PAGE_SIZE);
    }
    assert FitsAt(b, PAGE_SHIFT, 3, _ => true, 2);
    TakeKeepsCount(b, 2, 3);
  }

  lemma PagesAligned()
    ensures Pow2(PAGE_SHIFT) == PAGE_SIZE
  {
    PageTimesStep(PAGE_SHIFT);
  }

  // ------------------------------------------------------- ranges of addresses

  /** The frames that a range of addresses counts for: from the frame of its first byte on, as many as its size needs. */
  function FrameOf(start: nat, pa: nat): nat
    requires start <= pa
  {
    (pa - start) / PAGE_SIZE
  }

  /** The frames counted reach to the last byte of the range. */
  predicate Whole(start: nat, pa: nat, sz: nat)
    requires start <= pa
  {
    (pa - start) % PAGE_SIZE + sz <= SizeToPage(sz) * PAGE_SIZE
  }

  /** A range counts for every frame it touches exactly if it does not begin too far into its first frame. */
  lemma CountedFramesAreTouched(start: nat, pa: nat, sz: nat)
    requires start <= pa && sz > 0
    ensures (forall a: nat | pa <= a < pa + sz :: FrameOf(start, pa) <= FrameOf(start, a) < FrameOf(start, pa) + SizeToPage(sz))
            <==> Whole(start, pa, sz)
  {
    var pos, cnt, last := FrameOf(start, pa), SizeToPage(sz), pa + sz - 1;
    if Whole(start, pa, sz) {
      forall a: nat | pa <= a < pa + sz ensures pos <= FrameOf(start, a) < pos + cnt {
      }
    } else {
      assert pos + cnt <= FrameOf(start, last);
    }
  }

  /** A range that begins at a frame boundary counts for every frame it touches. */
  lemma AlignedIsWhole(start: nat, pa: nat, sz: nat)
    requires start <= pa && (pa - start) % PAGE_SIZE == 0
    ensures Whole(start, pa, sz)
  {
  }

  /**
    Two ranges that are reserved one after the other in an unused bank at 0: they count for different frames, but
    the second half of the first range is the first half of the second.
   */
  lemma ReservesOverlap(frames: nat)
    requires frames >= 2
    ensures !Whole(0, 0x800, 0x1000) && Whole(0, 0x1000, 0x1000)
    ensures var b, pos, cnt := FreshBank(0, frames), FrameOf(0, 0x800), SizeToPage(0x1000);
            && RunFree(b.bits, pos, cnt) && pos + cnt <= FrameOf(0, 0x1000)
            && RunFree(Taken(b, pos, cnt).bits, FrameOf(0, 0x1000), cnt)
  {
  }
}
