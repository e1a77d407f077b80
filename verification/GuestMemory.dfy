/**
  Reading and writing guest memory: the loops over mapping slots and host pages do the same as copying byte by
  byte through the translation of each address.
 */
module GuestMemory {
  import opened Options
  import opened Bits
  import opened IntervalTree
  import opened GuestMapping
  import opened GuestAspace
  import HostRamSpec

  type Byte = bv8

  type Memory = nat -> Byte

  function Load(mem: Memory, at: nat, n: nat): seq<Byte> {
    seq(n, i requires 0 <= i < n => mem(at + i))
  }

  function Stored(mem: Memory, at: nat, bytes: seq<Byte>): Memory {
    (a: nat) => if at <= a < at + |bytes| then bytes[a - at] else mem(a)
  }

  lemma LoadSplits(mem: Memory, at: nat, n: nat, m: nat)
    ensures Load(mem, at, n) + Load(mem, at + n, m) == Load(mem, at, n + m)
  {
  }

  // -------------------------------------------------------------- host memory

  class HostMemory {
    var mem: Memory

    constructor (mem: Memory)
      ensures this.mem == mem
    {
      this.mem := mem;
    }

    /** Reads page by page. */
    method Read(hpa: nat, len: nat) returns (dst: seq<Byte>)
      ensures dst == Load(mem, hpa, len)
    {
      dst := [];
      var at := hpa;
      while |dst| < len
        invariant |dst| <= len && at == hpa + |dst| && dst == Load(mem, hpa, |dst|)
      {
        var room := HostRamSpec.PAGE_SIZE - at % HostRamSpec.PAGE_SIZE;
        var n := if room < len - |dst| then room else len - |dst|;
        LoadSplits(mem, hpa, |dst|, n);
        dst := dst + Load(mem, at, n);
        at := at + n;
      }
    }

    /** Writes page by page. */
    method Write(hpa: nat, src: seq<Byte>)
      modifies this
      ensures forall a: nat :: mem(a) == Stored(old(mem), hpa, src)(a)
    {
      var done, at := 0, hpa;
      while done < |src|
        invariant done <= |src| && at == hpa + done
        invariant forall a: nat :: mem(a) == Stored(old(mem), hpa, src[..done])(a)
      {
        var room := HostRamSpec.PAGE_SIZE - at % HostRamSpec.PAGE_SIZE;
        var n := if room < |src| - done then room else |src| - done;
        mem := Stored(mem, at, src[done..done + n]);
        done, at := done + n, at + n;
      }
      assert src[..done] == src;
    }
  }

  // --------------------------------------------------------------- translation

  const REAL_MEMORY: set<Flag> := {Real, Memory}

  /** The region `x`, which is real memory and no alias, holds `a`. */
  ghost predicate RealAt(s: set<Range>, a: nat, x: Range) {
    x in s && x.Has(a) && RealMemory(x)
  }

  predicate RealMemory(x: Range) {
    REAL_MEMORY <= x.data.flags && Alias !in x.data.flags
  }

  ghost predicate Backed(s: set<Range>, a: nat) {
    exists x :: RealAt(s, a, x)
  }

  /** The host address behind a guest address. */
  ghost function HostAddr(s: set<Range>, a: nat): nat {
    if Backed(s, a) then
      var x :| RealAt(s, a, x);
      if HostOf(x, a) >= 0 then HostOf(x, a) else 0
    else 0
  }

  /** Regions do not overlap, and each has all its slots. */
  ghost predicate Sound(s: set<Range>) {
    Disjoint(s) && forall x | x in s :: Mapped(x)
  }

  /** From `a` on, the addresses of one slot are backed by host addresses that follow each other. */
  lemma ChunkIsContiguous(s: set<Range>, a: nat, x: Range, k: nat)
    requires Sound(s) && RealAt(s, a, x)
    ensures AvailOf(x, a) > 0 && HostOf(x, a) >= 0
    ensures k < AvailOf(x, a) ==> Backed(s, a + k) && HostAddr(s, a + k) == HostOf(x, a) + k
  {
    SlotIsContiguous(x, a, k);
    if k < AvailOf(x, a) {
      SlotIsContiguous(x, a + k, 0);
      assert RealAt(s, a + k, x);
    }
  }

  ghost predicate BackedRun(s: set<Range>, g: nat, n: nat) {
    forall a: nat | g <= a < g + n :: Backed(s, a)
  }

  // ------------------------------------------------------ byte-by-byte copying

  /** The byte the guest sees at `a`. */
  ghost function ByteAt(mem: Memory, s: set<Range>, a: nat): Byte {
    mem(HostAddr(s, a))
  }

  /** The memory after writing the bytes one at a time, each through the translation of its own address. */
  ghost function ByteWrites(mem: Memory, s: set<Range>, g: nat, bytes: seq<Byte>): Memory
    decreases |bytes|
  {
    if bytes == [] then mem
    else Stored(ByteWrites(mem, s, g, bytes[..|bytes| - 1]), HostAddr(s, g + |bytes| - 1), [bytes[|bytes| - 1]])
  }

  /** Writing a chunk at once is the same as writing its bytes one at a time. */
  lemma {:induction false} ChunkWrites(mem: Memory, s: set<Range>, g: nat, bytes: seq<Byte>, x: Range, chunk: seq<Byte>, p: nat)
    requires Sound(s) && RealAt(s, g + |bytes|, x) && |chunk| <= AvailOf(x, g + |bytes|) && HostOf(x, g + |bytes|) >= 0
    ensures ByteWrites(mem, s, g, bytes + chunk)(p) == Stored(ByteWrites(mem, s, g, bytes), HostOf(x, g + |bytes|), chunk)(p)
    decreases |chunk|
  {
    hide HostOf, AvailOf, RealAt, HostAddr, Backed, Sound;
    var a := g + |bytes|;
    if chunk == [] {
      assert bytes + chunk == bytes;
    } else {
      var k := |chunk| - 1;
      ChunkWrites(mem, s, g, bytes, x, chunk[..k], p);
      ChunkIsContiguous(s, a, x, k);
      var all := bytes + chunk;
      assert all[..|all| - 1] == bytes + chunk[..k];
      assert all[|all| - 1] == chunk[k] && g + |all| - 1 == a + k;
    }
  }

  // -------------------------------------------------------------- guest memory

  class Guest {
    const aspace: Aspace
    const host: HostMemory

    constructor (aspace: Aspace, host: HostMemory)
      ensures this.aspace == aspace && this.host == host
    {
      this.aspace, this.host := aspace, host;
    }

    ghost predicate Valid()
      reads this, aspace
    {
      aspace.Valid() && Acyclic(aspace.Regions(false))
    }

    ghost function Regions(): set<Range>
      reads this, aspace
    {
      aspace.Regions(false)
    }

    /** The chunk at `a`: none if `a` is not real memory, or is reached through an alias. */
    method FindChunk(a: nat, want: nat) returns (found: bool, hphys: nat, n: nat, ghost x: Range)
      requires Valid() && want > 0
      ensures Sound(Regions())
      ensures found ==> RealAt(Regions(), a, x) && hphys == HostOf(x, a)
                        && n == if want < AvailOf(x, a) then want else AvailOf(x, a)
      ensures found <==> Backed(Regions(), a)
      ensures if found then n > 0 else n == 0
    {
      hide Ordered, Items, Via, Acyclic, HostOf, AvailOf, Mapped;
      ghost var s := Regions();
      OrderedDisjoint(aspace.memTree);
      assert Sound(s);
      var r;
      ghost var path, b;
      r, path, b := aspace.FindRegion(a, REAL_MEMORY, true);
      if r.None? {
        NotBacked(s, REAL_MEMORY - MANIFEST, a, path, b);
        x := Item(0, 0, Region({}, 0, 0, []));
        return false, 0, 0, x;
      }
      var y := r.value;
      var h, avail := FindMapping(y, a);
      Resolved(s, REAL_MEMORY - MANIFEST, a, path, b, y);
      if avail == 0 {
        return false, 0, 0, y;
      }
      ChunkIsContiguous(s, a, y, 0);
      return true, h, if want < avail then want else avail, y;
    }

    /** Reads up to `len` bytes; it stops at the first address that is no real memory. */
    method Read(gphys: nat, len: nat) returns (dst: seq<Byte>)
      requires Valid()
      ensures Sound(Regions()) && |dst| <= len && BackedRun(Regions(), gphys, |dst|)
      ensures |dst| == len || !Backed(Regions(), gphys + |dst|)
      ensures forall a: nat | gphys <= a < gphys + |dst| :: dst[a - gphys] == ByteAt(host.mem, Regions(), a)
    {
      hide Acyclic, HostOf, AvailOf, RealAt, HostAddr, Sound, Backed, Load, ByteAt;
      ghost var s := Regions();
      OrderedSound(aspace);
      dst := [];
      var at := gphys;
      while |dst| < len
        invariant |dst| <= len && at == gphys + |dst| && Sound(s) && BackedRun(s, gphys, |dst|)
        invariant forall a: nat | gphys <= a < gphys + |dst| :: dst[a - gphys] == ByteAt(host.mem, s, a)
        decreases len - |dst|
      {
        ghost var x;
        var found, h, n;
        found, h, n, x := FindChunk(at, len - |dst|);
        if !found {
          return;
        }
        var bytes := host.Read(h, n);
        ReadChunk(s, gphys, dst, x, host.mem, n);
        LoadLength(host.mem, h, n);
        dst, at := dst + bytes, at + n;
      }
    }

    /** Writes bytes up to the first address that is no real memory. */
    method Write(gphys: nat, src: seq<Byte>) returns (n: nat)
      requires Valid()
      modifies host
      ensures Sound(Regions()) && n <= |src| && BackedRun(Regions(), gphys, n)
      ensures n == |src| || !Backed(Regions(), gphys + n)
      ensures forall p: nat :: host.mem(p) == ByteWrites(old(host.mem), Regions(), gphys, src[..n])(p)
    {
      hide Acyclic, HostOf, AvailOf, RealAt, HostAddr, Sound, Backed, ByteWrites;
      ghost var s := Regions();
      OrderedSound(aspace);
      n := 0;
      var at := gphys;
      NoWrites(old(host.mem), s, gphys, src);
      while n < |src|
        invariant n <= |src| && at == gphys + n && Sound(s) && BackedRun(s, gphys, n)
        invariant forall p: nat :: host.mem(p) == ByteWrites(old(host.mem), s, gphys, src[..n])(p)
        decreases |src| - n
      {
        ghost var x;
        var found, h, k;
        found, h, k, x := FindChunk(at, |src| - n);
        if !found {
          return;
        }
        ghost var before := host.mem;
        host.Write(h, src[n..n + k]);
        WriteChunk(old(host.mem), before, s, gphys, src, n, x, k, host.mem);
        n, at := n + k, at + k;
      }
    }
  }

  lemma OrderedSound(aspace: Aspace)
    requires aspace.Valid()
    ensures Sound(aspace.Regions(false))
  {
    OrderedDisjoint(aspace.memTree);
  }

  lemma NoWrites(mem: Memory, s: set<Range>, g: nat, src: seq<Byte>)
    ensures forall p: nat :: mem(p) == ByteWrites(mem, s, g, src[..0])(p)
  {
  }

  lemma LoadLength(mem: Memory, at: nat, n: nat)
    ensures |Load(mem, at, n)| == n
  {
  }

  /** Where the lookup fails, the address is not backed: an alias is not read through. */
  lemma NotBacked(s: set<Range>, need: set<Flag>, a: nat, path: seq<Range>, b: nat)
    requires Disjoint(s) && Via(s, need, a, path, b)
    requires forall x | x in s && Alias !in x.data.flags :: !Lies(s, REAL_MEMORY, b, x)
    ensures !Backed(s, a)
  {
    forall x ensures !RealAt(s, a, x) {
      assert path != [] ==> path[0].Has(a);
      assert RealAt(s, a, x) ==> Lies(s, REAL_MEMORY, a, x);
    }
  }

  /** The region that is found holds the address itself exactly if no alias was passed. */
  lemma Resolved(s: set<Range>, need: set<Flag>, a: nat, path: seq<Range>, b: nat, y: Range)
    requires Sound(s) && Via(s, need, a, path, b) && Lies(s, REAL_MEMORY, b, y) && Alias !in y.data.flags
    ensures y.Has(a) <==> Backed(s, a)
    ensures y.Has(a) ==> RealAt(s, a, y) && AvailOf(y, a) > 0
  {
    forall x ensures path != [] ==> !RealAt(s, a, x) {
      assert path != [] ==> path[0].Has(a);
    }
    if y.Has(a) {
      assert RealAt(s, a, y);
      ChunkIsContiguous(s, a, y, 0);
    }
  }

  lemma ReadChunk(s: set<Range>, g: nat, dst: seq<Byte>, x: Range, mem: Memory, n: nat)
    requires Sound(s) && RealAt(s, g + |dst|, x) && BackedRun(s, g, |dst|)
    requires n <= AvailOf(x, g + |dst|) && HostOf(x, g + |dst|) >= 0
    requires forall a: nat | g <= a < g + |dst| :: dst[a - g] == ByteAt(mem, s, a)
    ensures BackedRun(s, g, |dst| + n)
    ensures var r := dst + Load(mem, HostOf(x, g + |dst|), n);
            forall a: nat | g <= a < g + |dst| + n :: r[a - g] == ByteAt(mem, s, a)
  {
    hide HostOf, AvailOf, HostAddr, Sound, Backed;
    var r := dst + Load(mem, HostOf(x, g + |dst|), n);
    forall a: nat | g <= a < g + |dst| + n ensures Backed(s, a) && r[a - g] == ByteAt(mem, s, a) {
      if a >= g + |dst| {
        var k := a - (g + |dst|);
        ChunkIsContiguous(s, g + |dst|, x, k);
        assert g + |dst| + k == a;
      }
    }
  }

  lemma WriteChunk(mem0: Memory, mem: Memory, s: set<Range>, g: nat, src: seq<Byte>, n: nat, x: Range, k: nat, mem': Memory)
    requires Sound(s) && n + k <= |src| && BackedRun(s, g, n) && RealAt(s, g + n, x)
    requires k <= AvailOf(x, g + n) && HostOf(x, g + n) >= 0
    requires forall p: nat :: mem(p) == ByteWrites(mem0, s, g, src[..n])(p)
    requires forall p: nat :: mem'(p) == Stored(mem, HostOf(x, g + n), src[n..n + k])(p)
    ensures BackedRun(s, g, n + k) && forall p: nat :: mem'(p) == ByteWrites(mem0, s, g, src[..n + k])(p)
  {
    hide HostOf, AvailOf, HostAddr, Sound, Backed, ByteWrites;
    assert src[..n] + src[n..n + k] == src[..n + k];
    forall p: nat ensures mem'(p) == ByteWrites(mem0, s, g, src[..n + k])(p) {
      ChunkWrites(mem0, s, g, src[..n], x, src[n..n + k], p);
    }
    forall a: nat | g <= a < g + n + k ensures Backed(s, a) {
      if a >= g + n {
        ChunkIsContiguous(s, g + n, x, a - (g + n));
        assert g + n + (a - (g + n)) == a;
      }
    }
  }

  // -------------------------------------------------------------- round trips

  /** Different guest addresses are backed by different host addresses. */
  ghost predicate Injective(s: set<Range>) {
    forall a: nat, b: nat {:trigger HostAddr(s, a), HostAddr(s, b)} |
      Backed(s, a) && Backed(s, b) && HostAddr(s, a) == HostAddr(s, b) :: a == b
  }

  /** What was written is read back, and no other guest address changes. */
  lemma {:induction false} WriteThenRead(mem: Memory, s: set<Range>, g: nat, bytes: seq<Byte>, a: nat)
    requires Injective(s) && BackedRun(s, g, |bytes|) && Backed(s, a)
    ensures ByteAt(ByteWrites(mem, s, g, bytes), s, a) == if g <= a < g + |bytes| then bytes[a - g] else ByteAt(mem, s, a)
    decreases |bytes|
  {
    hide Backed, HostAddr;
    if bytes != [] {
      var k := |bytes| - 1;
      WriteThenRead(mem, s, g, bytes[..k], a);
      assert Backed(s, g + k);
      assert g + |bytes| - 1 == g + k;
      assert HostAddr(s, a) == HostAddr(s, g + k) <==> a == g + k;
    }
  }

  /** The host addresses of two slots have nothing in common. */
  predicate SlotsApart(x: Range, i: nat, y: Range, j: nat)
    requires i < |x.data.maps| && j < |y.data.maps| && x.lo <= x.hi && y.lo <= y.hi
  {
    x.data.maps[i] + SlotSize(x, i) <= y.data.maps[j] || y.data.maps[j] + SlotSize(y, j) <= x.data.maps[i]
  }

  /** No two slots of real memory share host memory. */
  ghost predicate OwnFrames(s: set<Range>)
    requires Sound(s)
  {
    forall x, y, i, j {:trigger SlotsApart(x, i, y, j)} |
      && x in s && y in s && RealMemory(x) && RealMemory(y)
      && 0 <= i < |x.data.maps| && 0 <= j < |y.data.maps| && (x != y || i != j) :: SlotsApart(x, i, y, j)
  }

  lemma InSlot(s: set<Range>, a: nat, x: Range)
    requires Sound(s) && RealAt(s, a, x)
    ensures Backed(s, a) && SlotOf(x, a) < |x.data.maps| && x.lo <= x.hi
    ensures x.data.maps[SlotOf(x, a)] <= HostAddr(s, a) < x.data.maps[SlotOf(x, a)] + SlotSize(x, SlotOf(x, a))
    ensures HostAddr(s, a) - x.data.maps[SlotOf(x, a)] == a - (x.lo + SlotOffset(x, SlotOf(x, a)))
  {
    hide Bits.Pow2, SlotOffset, SlotSize, SlotOf;
    SlotOfIsRight(x, a, SlotOf(x, a));
    ChunkIsContiguous(s, a, x, 0);
    assert HostAddr(s, a) == HostOf(x, a);
  }

  /** With frames of their own, different guest addresses have different host addresses. */
  lemma OwnFramesAreInjective(s: set<Range>)
    requires Sound(s) && OwnFrames(s)
    ensures Injective(s)
  {
    hide Sound, HostAddr, SlotOf, SlotOffset, SlotSize, Mapped, Disjoint;
    forall a: nat, b: nat | Backed(s, a) && Backed(s, b) && HostAddr(s, a) == HostAddr(s, b) ensures a == b {
      var x :| RealAt(s, a, x);
      var y :| RealAt(s, b, y);
      InSlot(s, a, x);
      InSlot(s, b, y);
      var i, j := SlotOf(x, a), SlotOf(y, b);
      assert (x == y && i == j) || SlotsApart(x, i, y, j);
    }
  }
}
