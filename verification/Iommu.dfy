/**
  Mapping and unmapping through an IOMMU that supports several page sizes: a range is cut greedily into
  supported pages, and a mapping that fails half-way is rolled back.
 */
module Iommu {
  import opened Bits
  import opened Alignment

  /** The page size `2^j` is supported, fits into `size`, and divides the merged address. */
  ghost predicate Fits(bitmap: nat, merge: nat, size: nat, j: nat) {
    Bit(bitmap, j) && Pow2(j) <= size && merge % Pow2(j) == 0
  }

  /** `p` is the largest supported page size that fits into `size` and divides the merged address. */
  ghost predicate Largest(bitmap: nat, merge: nat, size: nat, p: nat) {
    exists j: nat :: Fits(bitmap, merge, size, j) && p == Pow2(j) && forall i: nat | Fits(bitmap, merge, size, i) :: i <= j
  }

  /** The page size to use next; `bug` is the case the code asserts never to happen. */
  method PageSize(bitmap: nat, merge: nat, size: nat) returns (bug: bool, pgsize: nat)
    requires size > 0
    ensures bug <==> forall j: nat :: !Fits(bitmap, merge, size, j)
    ensures !bug ==> Largest(bitmap, merge, size, pgsize)
  {
    var idx := Fls(size);
    if merge != 0 {
      var align := Ffs(merge);
      idx := if align < idx then align else idx;
    }
    pgsize := Pow2(idx + 1) - 1;
    pgsize := And(pgsize, bitmap);
    FitsIsMasked(bitmap, merge, size, idx);
    if pgsize == 0 {
      return true, 0;
    }
    idx := Fls(pgsize);
    FlsIsHighest(pgsize, 0);
    forall i: nat | Fits(bitmap, merge, size, i) ensures i <= idx {
      FlsIsHighest(pgsize, i);
    }
    return false, Pow2(idx);
  }

  /** The page sizes that fit are the bits that the mask leaves. */
  lemma FitsIsMasked(bitmap: nat, merge: nat, size: nat, idx: nat)
    requires size > 0 && idx == if merge == 0 || Fls(size) < Ffs(merge) then Fls(size) else Ffs(merge)
    ensures forall j: nat :: Fits(bitmap, merge, size, j) <==> Bit(And(Pow2(idx + 1) - 1, bitmap), j)
    ensures And(Pow2(idx + 1) - 1, bitmap) == 0 <==> forall j: nat :: !Fits(bitmap, merge, size, j)
  {
    var masked := And(Pow2(idx + 1) - 1, bitmap);
    AndMask(idx + 1, bitmap);
    forall j: nat ensures Fits(bitmap, merge, size, j) <==> Bit(masked, j) {
      BitOfMod(bitmap, idx + 1, j);
      FlsBounds(size, j);
      if merge == 0 {
        assert merge % Pow2(j) == 0;
      } else {
        FfsDivides(merge, j);
      }
    }
    if masked == 0 {
      forall j: nat ensures !Bit(masked, j) {
        BitOfZero(j);
      }
    } else {
      FlsIsHighest(masked, 0);
    }
  }

  function MinPage(bitmap: nat): (m: nat)
    requires bitmap > 0
    ensures m > 0
  {
    Pow2(Ffs(bitmap))
  }

  predicate IsAligned(x: nat, m: nat)
    requires m > 0
  {
    And(x, m - 1) == 0
  }

  lemma AlignedIsDivisible(x: nat, k: nat)
    ensures IsAligned(x, Pow2(k)) <==> x % Pow2(k) == 0
  {
    AndCommutes(x, Pow2(k) - 1);
    AndMask(k, x);
  }

  /** With aligned addresses and size there always is a page size that fits, and it is a multiple of the smallest one. */
  lemma AlwaysFits(bitmap: nat, merge: nat, size: nat)
    requires bitmap > 0 && size > 0 && merge % MinPage(bitmap) == 0 && size % MinPage(bitmap) == 0
    ensures Fits(bitmap, merge, size, Ffs(bitmap))
  {
    FfsIsLowest(bitmap, 0);
    SmallestFirst(size, MinPage(bitmap));
  }

  lemma LargestIsWhole(bitmap: nat, merge: nat, size: nat, p: nat)
    requires bitmap > 0 && Largest(bitmap, merge, size, p)
    ensures 0 < p <= size && p % MinPage(bitmap) == 0
  {
    var j: nat :| Fits(bitmap, merge, size, j) && p == Pow2(j);
    FfsIsLowest(bitmap, j);
    Pow2Divides(Ffs(bitmap), j);
  }

  // ------------------------------------------------------------- translations

  predicate Within(a: nat, lo: nat, n: nat) {
    lo <= a < lo + n
  }

  /** `n` addresses from `iova` on lead to the addresses from `paddr` on. */
  function Stretch(iova: nat, paddr: nat, n: nat): map<nat, nat> {
    map a: nat | iova <= a < iova + n && Within(a, iova, n) :: paddr + (a - iova)
  }

  function Addresses(iova: nat, n: nat): set<nat> {
    set a: nat | iova <= a < iova + n && Within(a, iova, n)
  }

  lemma StretchGrows(trans: map<nat, nat>, iova: nat, paddr: nat, n: nat, p: nat)
    ensures trans + Stretch(iova, paddr, n) + Stretch(iova + n, paddr + n, p) == trans + Stretch(iova, paddr, n + p)
  {
  }

  lemma AddressesGrow(trans: map<nat, nat>, iova: nat, n: nat, p: nat)
    ensures trans - Addresses(iova, n) - Addresses(iova + n, p) == trans - Addresses(iova, n + p)
  {
  }

  /** Undoing a mapping leaves the old table without the addresses it touched. */
  lemma MapThenUnmap(trans: map<nat, nat>, iova: nat, paddr: nat, n: nat)
    ensures trans + Stretch(iova, paddr, n) - Addresses(iova, n) == trans - Addresses(iova, n)
    ensures trans - Addresses(iova, n) == trans <==> trans.Keys !! Addresses(iova, n)
  {
    if trans - Addresses(iova, n) == trans {
      assert trans.Keys == (trans - Addresses(iova, n)).Keys;
    }
  }

  /** Pages are mapped whole: with an address, every address of the same smallest page is mapped. */
  ghost predicate Paged(trans: map<nat, nat>, m: nat)
    requires m > 0
  {
    forall a, b {:trigger a / m, b / m} | a in trans && a / m == b / m :: b in trans
  }

  lemma SamePage(a: nat, b: nat, m: nat, x: nat)
    requires m > 0 && a / m == b / m && x % m == 0
    ensures x <= a <==> x <= b
    ensures a < x <==> b < x
  {
    assert a == m * (a / m) + a % m && b == m * (b / m) + b % m;
    var q := x / m;
    assert x == m * q;
    if x <= a && b < x {
      assert m * q < m * (a / m) + m && m * (a / m) < m * q;
      Between(m, a / m, q);
    }
    if x <= b && a < x {
      assert m * q < m * (a / m) + m && m * (a / m) < m * q;
      Between(m, a / m, q);
    }
  }

  lemma Between(m: nat, k: nat, q: nat)
    requires m > 0 && m * k < m * q
    ensures m * q >= m * k + m
  {
    assert q >= k + 1;
    assert m * q >= m * (k + 1);
  }

  lemma StretchKeys(iova: nat, paddr: nat, n: nat)
    ensures Stretch(iova, paddr, n).Keys == Addresses(iova, n)
  {
  }

  lemma PageInside(a: nat, b: nat, m: nat, iova: nat, n: nat)
    requires m > 0 && a / m == b / m && iova % m == 0 && (iova + n) % m == 0
    ensures a in Addresses(iova, n) <==> b in Addresses(iova, n)
  {
    SamePage(a, b, m, iova);
    SamePage(a, b, m, iova + n);
  }

  lemma PagedAfterMap(trans: map<nat, nat>, iova: nat, paddr: nat, n: nat, m: nat)
    requires m > 0 && Paged(trans, m) && iova % m == 0 && (iova + n) % m == 0
    ensures Paged(trans + Stretch(iova, paddr, n), m)
  {
    var t := trans + Stretch(iova, paddr, n);
    forall a, b | a in t && a / m == b / m ensures b in t {
      PageInside(a, b, m, iova, n);
      StretchKeys(iova, paddr, n);
      assert a in trans ==> b in trans;
    }
  }

  lemma PagedAfterUnmap(trans: map<nat, nat>, iova: nat, n: nat, m: nat)
    requires m > 0 && Paged(trans, m) && iova % m == 0 && (iova + n) % m == 0
    ensures Paged(trans - Addresses(iova, n), m)
  {
    var t := trans - Addresses(iova, n);
    forall a, b | a in t && a / m == b / m ensures b in t {
      PageInside(a, b, m, iova, n);
    }
  }

  lemma FirstPageMapped(trans: map<nat, nat>, iova: nat, m: nat)
    requires m > 0 && Paged(trans, m) && iova % m == 0 && iova in trans
    ensures Addresses(iova, m) <= trans.Keys
  {
    forall a | a in Addresses(iova, m) ensures a in trans {
      ModIs(a, m, iova / m, a - iova);
    }
  }

  lemma MultipleSum(a: nat, b: nat, m: nat)
    requires m > 0 && a % m == 0 && b % m == 0
    ensures (a + b) % m == 0
    ensures a >= b ==> (a - b) % m == 0
  {
    assert a == m * (a / m) && b == m * (b / m);
    assert a + b == m * (a / m + b / m) && a - b == m * (a / m - b / m);
    MulMod(a / m + b / m, m);
    MulMod(a / m - b / m, m);
  }

  // ------------------------------------------------------------------- tiling

  /** `pages` cover the first `done` bytes, each being the largest page possible at its place. */
  ghost predicate Tiled(bitmap: nat, iova: nat, paddr: nat, size: nat, pages: seq<nat>, done: nat) {
    if pages == [] then done == 0
    else
      var p := pages[|pages| - 1];
      && p <= done <= size
      && Largest(bitmap, Or(iova + (done - p), paddr + (done - p)), size - (done - p), p)
      && Tiled(bitmap, iova, paddr, size, pages[..|pages| - 1], done - p)
  }

  lemma TiledGrows(bitmap: nat, iova: nat, paddr: nat, size: nat, pages: seq<nat>, done: nat, p: nat)
    requires Tiled(bitmap, iova, paddr, size, pages, done) && done + p <= size
    requires Largest(bitmap, Or(iova + done, paddr + done), size - done, p)
    ensures Tiled(bitmap, iova, paddr, size, pages + [p], done + p)
  {
    assert (pages + [p])[..|pages|] == pages;
  }

  lemma LargestIsUnique(bitmap: nat, merge: nat, size: nat, p: nat, q: nat)
    requires Largest(bitmap, merge, size, p) && Largest(bitmap, merge, size, q)
    ensures p == q
  {
  }

  /** There is one way to tile greedily: of two tilings, one begins with the other. */
  lemma {:induction false} TilingIsUnique(bitmap: nat, iova: nat, paddr: nat, size: nat, ps: seq<nat>, d: nat, qs: seq<nat>, e: nat)
    requires Tiled(bitmap, iova, paddr, size, ps, d) && Tiled(bitmap, iova, paddr, size, qs, e) && |ps| <= |qs|
    ensures ps == qs[..|ps|] && d <= e && (|ps| == |qs| ==> d == e)
    decreases |qs|
  {
    hide Largest, Or;
    if |ps| < |qs| {
      var q := qs[|qs| - 1];
      TilingIsUnique(bitmap, iova, paddr, size, ps, d, qs[..|qs| - 1], e - q);
      assert qs[..|qs| - 1][..|ps|] == qs[..|ps|];
    } else if ps != [] {
      var n := |ps| - 1;
      TilingIsUnique(bitmap, iova, paddr, size, ps[..n], d - ps[n], qs[..n], e - qs[n]);
      assert qs[..n][..n] == qs[..n];
      LargestIsUnique(bitmap, Or(iova + (d - ps[n]), paddr + (d - ps[n])), size - (d - ps[n]), ps[n], qs[n]);
      assert ps == ps[..n] + [ps[n]] && qs == qs[..n] + [qs[n]];
    }
  }

  /** The page of `p` bytes at distance `d` belongs to the greedy tiling of the whole range. */
  ghost predicate PageAt(bitmap: nat, iova: nat, paddr: nat, size: nat, d: nat, p: nat) {
    d < size && Largest(bitmap, Or(iova + d, paddr + d), size - d, p) && exists ps :: Tiled(bitmap, iova, paddr, size, ps, d)
  }

  /** Between `d` and the end of the page there no page of the tiling begins. */
  lemma NextPage(bitmap: nat, iova: nat, paddr: nat, size: nat, pages: seq<nat>, d: nat, p: nat, e: nat, q: nat)
    requires Tiled(bitmap, iova, paddr, size, pages, d) && d + p <= size
    requires Largest(bitmap, Or(iova + d, paddr + d), size - d, p) && PageAt(bitmap, iova, paddr, size, e, q) && e < d + p
    ensures e < d || (e == d && q == p)
  {
    hide Largest, Tiled;
    TiledGrows(bitmap, iova, paddr, size, pages, d, p);
    var qs :| Tiled(bitmap, iova, paddr, size, qs, e);
    if |qs| <= |pages| {
      TilingIsUnique(bitmap, iova, paddr, size, qs, e, pages, d);
      if e == d {
        LargestIsUnique(bitmap, Or(iova + d, paddr + d), size - d, p, q);
      }
    } else {
      TilingIsUnique(bitmap, iova, paddr, size, pages + [p], d + p, qs, e);
    }
  }

  /** What the driver says to a page: whether it refuses to map `n` bytes at the first address to the second. */
  type Refusal = (nat, nat, nat) -> bool

  /** The driver accepts the pages of the tiling that begin before `d`. */
  ghost predicate Accepts(refuses: Refusal, bitmap: nat, iova: nat, paddr: nat, size: nat, d: nat) {
    forall e: nat, q: nat {:trigger PageAt(bitmap, iova, paddr, size, e, q)} |
      PageAt(bitmap, iova, paddr, size, e, q) && e < d :: !refuses(iova + e, paddr + e, q)
  }

  /** The driver refuses the page of the tiling at distance `d`. */
  ghost predicate RefusesAt(refuses: Refusal, bitmap: nat, iova: nat, paddr: nat, size: nat, d: nat) {
    exists p: nat :: PageAt(bitmap, iova, paddr, size, d, p) && refuses(iova + d, paddr + d, p)
  }

  lemma AcceptsMore(refuses: Refusal, bitmap: nat, iova: nat, paddr: nat, size: nat, pages: seq<nat>, d: nat, p: nat)
    requires Accepts(refuses, bitmap, iova, paddr, size, d) && Tiled(bitmap, iova, paddr, size, pages, d) && d + p <= size
    requires Largest(bitmap, Or(iova + d, paddr + d), size - d, p) && !refuses(iova + d, paddr + d, p)
    ensures Accepts(refuses, bitmap, iova, paddr, size, d + p)
  {
    hide Largest, Tiled, PageAt;
    forall e: nat, q: nat | PageAt(bitmap, iova, paddr, size, e, q) && e < d + p ensures !refuses(iova + e, paddr + e, q) {
      NextPage(bitmap, iova, paddr, size, pages, d, p, e, q);
    }
  }

  /** A page of the tiling divides both addresses it connects. */
  lemma LargestDividesBoth(bitmap: nat, iova: nat, paddr: nat, size: nat, p: nat)
    requires Largest(bitmap, Or(iova, paddr), size, p)
    ensures p > 0 && p <= size && iova % p == 0 && paddr % p == 0
    ensures exists j: nat :: Bit(bitmap, j) && p == Pow2(j)
    ensures forall j: nat | Bit(bitmap, j) && Pow2(j) <= size && iova % Pow2(j) == 0 && paddr % Pow2(j) == 0 :: Pow2(j) <= p
  {
    var k: nat :| Fits(bitmap, Or(iova, paddr), size, k) && p == Pow2(k) && forall i: nat | Fits(bitmap, Or(iova, paddr), size, i) :: i <= k;
    OrDivides(iova, paddr, k);
    forall j: nat | Bit(bitmap, j) && Pow2(j) <= size && iova % Pow2(j) == 0 && paddr % Pow2(j) == 0 ensures Pow2(j) <= p {
      OrDivides(iova, paddr, j);
      assert Fits(bitmap, Or(iova, paddr), size, j);
      if j < k {
        Pow2Grows(j, k);
      }
    }
  }

  // -------------------------------------------------------------- the domain

  datatype Rc = Ok | NoDevice | Unaligned | Failed

  class Domain {
    const bitmap: nat
    const hasUnmap: bool
    var trans: map<nat, nat>

    ghost predicate Valid()
      reads this
    {
      bitmap > 0 ==> Paged(trans, MinPage(bitmap))
    }

    constructor (bitmap: nat, hasUnmap: bool)
      ensures Valid() && trans == map[] && this.bitmap == bitmap && this.hasUnmap == hasUnmap
    {
      this.bitmap, this.hasUnmap, trans := bitmap, hasUnmap, map[];
    }

    /** The driver maps one page, or refuses and changes nothing. */
    method DriverMap(refuses: Refusal, iova: nat, paddr: nat, pgsize: nat) returns (ok: bool)
      modifies this
      ensures ok <==> !refuses(iova, paddr, pgsize)
      ensures trans == if ok then old(trans) + Stretch(iova, paddr, pgsize) else old(trans)
    {
      ok := !refuses(iova, paddr, pgsize);
      if ok {
        trans := trans + Stretch(iova, paddr, pgsize);
      }
    }

    /** The driver unmaps some whole pages from `iova` on, at most `pgsize` bytes; none only if `iova` is not mapped. */
    method DriverUnmap(iova: nat, pgsize: nat) returns (n: nat)
      requires Valid() && bitmap > 0 && iova % MinPage(bitmap) == 0 && MinPage(bitmap) <= pgsize
      modifies this
      ensures n == 0 <==> iova !in old(trans)
      ensures n <= pgsize && n % MinPage(bitmap) == 0 && Addresses(iova, n) <= old(trans.Keys)
      ensures trans == old(trans) - Addresses(iova, n)
    {
      n := 0;
      if iova in trans {
        var m := MinPage(bitmap);
        FirstPageMapped(trans, iova, m);
        assert m % m == 0 by { MulMod(1, m); }
        n :| 0 < n <= pgsize && n % m == 0 && Addresses(iova, n) <= trans.Keys;
        trans := trans - Addresses(iova, n);
      } else {
        assert trans == trans - Addresses(iova, 0);
      }
    }

    /**
      Maps `size` bytes from `iova` on to `paddr`, exactly if the driver accepts every page of the greedy tiling.  When
      it refuses one, the pages before it are unmapped again; the old table is back exactly if none of those addresses
      was mapped before.
     */
    method Map(refuses: Refusal, iova: nat, paddr: nat, size: nat) returns (rc: Rc, ghost pages: seq<nat>, done: nat)
      requires Valid()
      modifies this
      ensures Valid()
      ensures rc == NoDevice <==> !hasUnmap || bitmap == 0
      ensures rc == Unaligned <==> hasUnmap && bitmap > 0 && !(iova % MinPage(bitmap) == 0 && paddr % MinPage(bitmap) == 0 && size % MinPage(bitmap) == 0)
      ensures rc == NoDevice || rc == Unaligned ==> trans == old(trans)
      ensures rc == Ok ==> trans == old(trans) + Stretch(iova, paddr, size) && Tiled(bitmap, iova, paddr, size, pages, size)
      ensures rc == Ok || rc == Failed ==> (rc == Ok <==> Accepts(refuses, bitmap, iova, paddr, size, size))
      ensures rc == Failed ==> Accepts(refuses, bitmap, iova, paddr, size, done) && RefusesAt(refuses, bitmap, iova, paddr, size, done)
      ensures rc == Failed ==> done < size && Tiled(bitmap, iova, paddr, size, pages, done)
                               && trans == old(trans) - Addresses(iova, done)
                               && (trans == old(trans) <==> old(trans.Keys) !! Addresses(iova, done))
    {
      hide Tiled, Paged, Stretch, And, Or, Largest, Accepts, RefusesAt;
      pages, done := [], 0;
      if !hasUnmap || bitmap == 0 {
        return NoDevice, pages, done;
      }
      var m := MinPage(bitmap);
      AlignedIsDivisible(Or(Or(iova, paddr), size), Ffs(bitmap));
      OrDivides(Or(iova, paddr), size, Ffs(bitmap));
      OrDivides(iova, paddr, Ffs(bitmap));
      if !IsAligned(Or(Or(iova, paddr), size), m) {
        return Unaligned, pages, done;
      }
      var ok, left;
      ok, left, pages := MapPages(refuses, iova, paddr, size);
      done := size - left;
      if !ok {
        RefusedSomewhere(refuses, bitmap, iova, paddr, size, done);
        MapThenUnmap(old(trans), iova, paddr, done);
        MultipleSum(size, left, m);
        var undone, n := Unmap(iova, done);
        Unmapped(old(trans), iova, paddr, done, n);
        return Failed, pages, done;
      }
      return Ok, pages, done;
    }

    /** The loop over the pages; `left` bytes are not mapped when the driver fails. */
    method MapPages(refuses: Refusal, iova: nat, paddr: nat, size: nat) returns (ok: bool, left: nat, ghost pages: seq<nat>)
      requires Valid() && bitmap > 0
      requires iova % MinPage(bitmap) == 0 && paddr % MinPage(bitmap) == 0 && size % MinPage(bitmap) == 0
      modifies this
      ensures Valid() && left <= size && left % MinPage(bitmap) == 0 && (ok <==> left == 0)
      ensures trans == old(trans) + Stretch(iova, paddr, size - left)
      ensures Tiled(bitmap, iova, paddr, size, pages, size - left) && Accepts(refuses, bitmap, iova, paddr, size, size - left)
      ensures !ok ==> RefusesAt(refuses, bitmap, iova, paddr, size, size - left)
    {
      hide Paged, Largest, Tiled, Stretch, Fits, PageAt, Accepts;
      var v, p := iova, paddr;
      ghost var m := MinPage(bitmap);
      left, pages := size, [];
      assert Tiled(bitmap, iova, paddr, size, [], 0) by { TiledNone(bitmap, iova, paddr, size); }
      assert Accepts(refuses, bitmap, iova, paddr, size, 0) by { AcceptsNone(refuses, bitmap, iova, paddr, size); }
      assert trans == old(trans) + Stretch(iova, paddr, 0) by { StretchNone(trans, iova, paddr); }
      while left > 0
        invariant Valid() && left <= size && v == iova + (size - left) && p == paddr + (size - left)
        invariant v % m == 0 && p % m == 0 && left % m == 0
        invariant trans == old(trans) + Stretch(iova, paddr, size - left)
        invariant Tiled(bitmap, iova, paddr, size, pages, size - left) && Accepts(refuses, bitmap, iova, paddr, size, size - left)
      {
        OrDivides(v, p, Ffs(bitmap));
        AlwaysFits(bitmap, Or(v, p), left);
        var bug, pgsize := PageSize(bitmap, Or(v, p), left);
        assert !bug;
        LargestIsWhole(bitmap, Or(v, p), left, pgsize);
        ok := DriverMap(refuses, v, p, pgsize);
        IsPage(bitmap, iova, paddr, size, pages, size - left, pgsize);
        if !ok {
          return false, left, pages;
        }
        MultipleSum(v, pgsize, m);
        MultipleSum(p, pgsize, m);
        MultipleSum(left, pgsize, m);
        PagedAfterMap(old(trans) + Stretch(iova, paddr, size - left), v, p, pgsize, m);
        StretchGrows(old(trans), iova, paddr, size - left, pgsize);
        TiledGrows(bitmap, iova, paddr, size, pages, size - left, pgsize);
        AcceptsMore(refuses, bitmap, iova, paddr, size, pages, size - left, pgsize);
        v, p, left := v + pgsize, p + pgsize, left - pgsize;
        pages := pages + [pgsize];
      }
      ok := true;
    }

    /** Unmaps `size` bytes from `iova` on, or up to the first address that is not mapped. */
    method Unmap(iova: nat, size: nat) returns (rc: Rc, unmapped: nat)
      requires Valid()
      modifies this
      ensures Valid()
      ensures rc == NoDevice <==> !hasUnmap || bitmap == 0
      ensures rc == Unaligned <==> hasUnmap && bitmap > 0 && !(iova % MinPage(bitmap) == 0 && size % MinPage(bitmap) == 0)
      ensures rc != Failed && unmapped <= size && (rc != Ok ==> unmapped == 0)
      ensures trans == old(trans) - Addresses(iova, unmapped) && Addresses(iova, unmapped) <= old(trans.Keys)
      ensures rc == Ok ==> unmapped == size || iova + unmapped !in old(trans)
    {
      unmapped := 0;
      NothingGone(trans, iova);
      if !hasUnmap || bitmap == 0 {
        return NoDevice, 0;
      }
      var m := MinPage(bitmap);
      AlignedIsDivisible(Or(iova, size), Ffs(bitmap));
      OrDivides(iova, size, Ffs(bitmap));
      if !IsAligned(Or(iova, size), m) {
        return Unaligned, 0;
      }
      unmapped := UnmapPages(iova, size);
      return Ok, unmapped;
    }

    method UnmapPages(iova: nat, size: nat) returns (unmapped: nat)
      requires Valid() && bitmap > 0 && iova % MinPage(bitmap) == 0 && size % MinPage(bitmap) == 0
      modifies this
      ensures Valid() && unmapped <= size
      ensures trans == old(trans) - Addresses(iova, unmapped) && Addresses(iova, unmapped) <= old(trans.Keys)
      ensures unmapped == size || iova + unmapped !in old(trans)
    {
      hide Paged, Largest, Fits, MinPage;
      unmapped := 0;
      NothingGone(trans, iova);
      ghost var m := MinPage(bitmap);
      var v := iova;
      while unmapped < size
        invariant Valid() && unmapped <= size && v == iova + unmapped && v % m == 0 && (size - unmapped) % m == 0
        invariant trans == old(trans) - Addresses(iova, unmapped) && Addresses(iova, unmapped) <= old(trans.Keys)
      {
        var n := UnmapPage(v, size - unmapped);
        if n == 0 {
          return unmapped;
        }
        MultipleSum(v, n, m);
        MultipleSum(size - unmapped, n, m);
        AddressesGrow(old(trans), iova, unmapped, n);
        v, unmapped := v + n, unmapped + n;
      }
    }

    method UnmapPage(v: nat, left: nat) returns (n: nat)
      requires Valid() && bitmap > 0 && v % MinPage(bitmap) == 0 && left % MinPage(bitmap) == 0 && left > 0
      modifies this
      ensures Valid() && n <= left && n % MinPage(bitmap) == 0
      ensures n == 0 <==> v !in old(trans)
      ensures trans == old(trans) - Addresses(v, n) && Addresses(v, n) <= old(trans.Keys)
    {
      hide Paged, Largest, Fits, MinPage;
      AlwaysFits(bitmap, v, left);
      var bug, pgsize := PageSize(bitmap, v, left);
      assert !bug;
      LargestIsWhole(bitmap, v, left, pgsize);
      SmallestFirst(pgsize, MinPage(bitmap));
      n := DriverUnmap(v, pgsize);
      MultipleSum(v, n, MinPage(bitmap));
      PagedAfterUnmap(old(trans), v, n, MinPage(bitmap));
    }
  }

  lemma NothingGone(trans: map<nat, nat>, iova: nat)
    ensures trans - Addresses(iova, 0) == trans && Addresses(iova, 0) == {}
  {
  }

  /**
    Unmapping a range that was mapped before reaches its end, and leaves the table as it was before the mapping
    exactly if none of the addresses was mapped then.
   */
  lemma MapThenUnmapIsIdentity(before: map<nat, nat>, iova: nat, paddr: nat, size: nat, n: nat, after: map<nat, nat>)
    requires n <= size && after == before + Stretch(iova, paddr, size) - Addresses(iova, n)
    requires n == size || iova + n !in before + Stretch(iova, paddr, size)
    ensures n == size && (after == before <==> before.Keys !! Addresses(iova, size))
  {
    Unmapped(before, iova, paddr, size, n);
    MapThenUnmap(before, iova, paddr, size);
  }

  lemma AcceptsNone(refuses: Refusal, bitmap: nat, iova: nat, paddr: nat, size: nat)
    ensures Accepts(refuses, bitmap, iova, paddr, size, 0)
  {
  }

  lemma IsPage(bitmap: nat, iova: nat, paddr: nat, size: nat, pages: seq<nat>, d: nat, p: nat)
    requires Tiled(bitmap, iova, paddr, size, pages, d) && d < size && Largest(bitmap, Or(iova + d, paddr + d), size - d, p)
    ensures PageAt(bitmap, iova, paddr, size, d, p)
  {
  }

  lemma RefusedSomewhere(refuses: Refusal, bitmap: nat, iova: nat, paddr: nat, size: nat, d: nat)
    requires d < size && RefusesAt(refuses, bitmap, iova, paddr, size, d)
    ensures !Accepts(refuses, bitmap, iova, paddr, size, size)
  {
    hide PageAt;
  }

  lemma TiledNone(bitmap: nat, iova: nat, paddr: nat, size: nat)
    ensures Tiled(bitmap, iova, paddr, size, [], 0)
  {
  }

  lemma StretchNone(trans: map<nat, nat>, iova: nat, paddr: nat)
    ensures trans + Stretch(iova, paddr, 0) == trans
  {
  }

  lemma SmallestFirst(p: nat, m: nat)
    requires m > 0 && p > 0 && p % m == 0
    ensures m <= p
  {
  }

  /** After a mapping of `done` bytes an unmapping of as many does not meet a hole. */
  lemma Unmapped(trans: map<nat, nat>, iova: nat, paddr: nat, done: nat, n: nat)
    requires n <= done && (n == done || iova + n !in trans + Stretch(iova, paddr, done))
    ensures n == done
  {
    assert n < done ==> iova + n in Stretch(iova, paddr, done);
  }
}
