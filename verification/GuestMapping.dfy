/** How the slots of a guest region tile it, and where each guest address leads. */
module GuestMapping {
  import opened Bits
  import opened Alignment
  import opened IntervalTree

  datatype Flag = Real | Virtual | Alias | Memory | Io | IsRam | IsRom | IsDevice | IsReserved | IsAlloced | IsColored | IsShared

  /** What a region is besides its range: for an alias where it leads, otherwise the host address of every slot. */
  datatype Region = Region(flags: set<Flag>, aphys: nat, order: nat, maps: seq<nat>)

  type Range = Item<Region>

  function SlotCount(size: nat, order: nat): nat {
    var n := size / Pow2(order);
    if n * Pow2(order) < size then n + 1 else n
  }

  /** Every region has one slot for each started `2^order` bytes. */
  ghost predicate Mapped(x: Range) {
    x.lo < x.hi && |x.data.maps| == SlotCount(x.hi - x.lo, x.data.order)
  }

  function SlotOffset(x: Range, i: nat): nat
    requires x.lo <= x.hi
  {
    if |x.data.maps| <= i then x.hi - x.lo else i * Pow2(x.data.order)
  }

  function SlotSize(x: Range, i: nat): int
    requires x.lo <= x.hi
  {
    if |x.data.maps| <= i then 0
    else
      var map_size, size := Pow2(x.data.order), (x.hi - x.lo) - SlotOffset(x, i);
      if size < map_size then size else map_size
  }

  /** The slot that holds the guest address `a`. */
  function SlotOf(x: Range, a: nat): nat
    requires x.lo <= a
  {
    Quotient(a - x.lo, Pow2(x.data.order))
  }

  function Quotient(a: nat, m: nat): nat
    requires m > 0
  {
    a / m
  }

  lemma SlotCountBounds(size: nat, order: nat, i: nat)
    ensures i < SlotCount(size, order) <==> i * Pow2(order) < size
  {
    var m := Pow2(order);
    CeilBounds(size, m, i);
  }

  lemma CeilBounds(size: nat, m: nat, i: nat)
    requires m > 0
    ensures var n := size / m; (i < if n * m < size then n + 1 else n) <==> i * m < size
  {
    var n := size / m;
    assert size == m * n + size % m && m * n == n * m;
    if i < n {
      Multiples(i, n, m);
    } else if i > n {
      Multiples(n, i, m);
    }
  }

  lemma Multiples(i: nat, n: nat, m: nat)
    requires i < n && m > 0
    ensures i * m + m <= n * m
  {
    assert (i + 1) * m == i * m + m;
    assert (n - (i + 1)) * m >= 0;
    assert n * m == (i + 1) * m + (n - (i + 1)) * m;
  }

  /** The slots follow each other without gap or overlap, from the start of the region to its end. */
  lemma SlotsTile(x: Range, i: nat)
    requires Mapped(x) && i < |x.data.maps|
    ensures SlotOffset(x, 0) == 0 && SlotOffset(x, |x.data.maps|) == x.hi - x.lo
    ensures 0 < SlotSize(x, i) <= Pow2(x.data.order)
    ensures SlotOffset(x, i) + SlotSize(x, i) == SlotOffset(x, i + 1)
  {
    hide Pow2;
    SlotCountBounds(x.hi - x.lo, x.data.order, i);
    SlotCountBounds(x.hi - x.lo, x.data.order, i + 1);
    assert (i + 1) * Pow2(x.data.order) == i * Pow2(x.data.order) + Pow2(x.data.order);
  }

  /** An address lies in the slot that `SlotOf` names, and in no other. */
  lemma SlotOfIsRight(x: Range, a: nat, i: nat)
    requires Mapped(x) && x.Has(a)
    ensures SlotOf(x, a) < |x.data.maps|
    ensures i < |x.data.maps| ==> (SlotOffset(x, i) <= a - x.lo < SlotOffset(x, i) + SlotSize(x, i) <==> i == SlotOf(x, a))
  {
    hide Pow2;
    var m, d := Pow2(x.data.order), a - x.lo;
    var k := d / m;
    assert d == m * k + d % m && m * k == k * m;
    SlotCountBounds(x.hi - x.lo, x.data.order, k);
    if i < k {
      Multiples(i, k, m);
    } else if i > k {
      Multiples(k, i, m);
    }
  }

  /** The host address of the guest address `a`. */
  function HostOf(x: Range, a: nat): int
    requires x.Has(a)
  {
    if SlotOf(x, a) < |x.data.maps| then x.data.maps[SlotOf(x, a)] + (a - (x.lo + SlotOffset(x, SlotOf(x, a)))) else 0
  }

  /** How many addresses from `a` on lie in the same slot. */
  function AvailOf(x: Range, a: nat): int
    requires x.Has(a)
  {
    SlotSize(x, SlotOf(x, a)) - (a - (x.lo + SlotOffset(x, SlotOf(x, a))))
  }

  /**
    In slot `i`, which begins `i * 2^order` behind the start of the region, an address lies as far from the host
    address of the slot as from its start, and the slot is available to its end or to the end of the region.
   */
  lemma HostOfIs(x: Range, a: nat, i: nat)
    requires Mapped(x) && x.Has(a) && x.lo + i * Pow2(x.data.order) <= a < x.lo + (i + 1) * Pow2(x.data.order)
    ensures i < |x.data.maps| && HostOf(x, a) == x.data.maps[i] + (a - x.lo - i * Pow2(x.data.order))
    ensures var end := x.lo + (i + 1) * Pow2(x.data.order);
            AvailOf(x, a) == (if end < x.hi then end else x.hi) - a
  {
    hide Pow2, SlotOf;
    var m := Pow2(x.data.order);
    assert (i + 1) * m == i * m + m;
    SlotCountBounds(x.hi - x.lo, x.data.order, i);
    SlotOfIsRight(x, a, i);
  }

  /** Within a slot the host addresses run along with the guest addresses. */
  lemma SlotIsContiguous(x: Range, a: nat, k: nat)
    requires Mapped(x) && x.Has(a)
    ensures 0 < AvailOf(x, a) && a + AvailOf(x, a) <= x.hi && HostOf(x, a) >= 0
    ensures k < AvailOf(x, a) ==> x.Has(a + k) && HostOf(x, a + k) == HostOf(x, a) + k && AvailOf(x, a + k) == AvailOf(x, a) - k
  {
    hide Pow2, SlotOf, SlotOffset, SlotSize;
    var i := SlotOf(x, a);
    SlotOfIsRight(x, a, i);
    SlotsTile(x, i);
    assert SlotOffset(x, i + 1) <= x.hi - x.lo by { SlotEnds(x, i); }
    if k < AvailOf(x, a) {
      SlotOfIsRight(x, a + k, i);
    }
  }

  lemma SlotEnds(x: Range, i: nat)
    requires Mapped(x) && i < |x.data.maps|
    ensures SlotOffset(x, i + 1) <= x.hi - x.lo
  {
    hide Pow2;
    SlotCountBounds(x.hi - x.lo, x.data.order, i + 1);
  }

  /** Looks the host address up as the code does: outside the region it finds nothing. */
  method FindMapping(x: Range, a: nat) returns (hphys: int, avail: int)
    requires Mapped(x)
    ensures x.Has(a) ==> hphys == HostOf(x, a) && avail == AvailOf(x, a)
    ensures !x.Has(a) ==> hphys == 0 && avail == 0
  {
    if a < x.lo || x.hi <= a {
      return 0, 0;
    }
    var i := SlotOf(x, a);
    SlotOfIsRight(x, a, i);
    var start := x.lo + SlotOffset(x, i);
    hphys := x.data.maps[i] + (a - start);
    avail := x.data.maps[i] + SlotSize(x, i) - hphys;
  }
}
