/** The index of the physical ranges that are mapped into the hypervisor's address space, with reference counts. */
module MemMap {
  import opened Options
  import opened IntervalTree

  datatype Entry = Entry(va: nat, flags: nat, refs: nat)

  type Range = Item<Entry>

  datatype Rc = Ok | Invalid | NoMemory | NotAvailable | Busy | Panic

  /** Physical address `p` leads to the virtual address `v`. */
  ghost predicate Maps(items: set<Range>, p: nat, v: nat) {
    exists x | x in items :: x.Has(p) && v == x.data.va + (p - x.lo)
  }

  /** The virtual range lies inside that of the entry, and the physical one does not end behind it. */
  predicate Inside(x: Range, pa: nat, va: nat, sz: nat)
    requires x.lo <= x.hi
  {
    var size := x.hi - x.lo;
    !(va < x.data.va || x.data.va + size <= va || va + sz < x.data.va || x.data.va + size < va + sz || x.hi < pa + sz)
  }

  /** `pa` and `va` are at the same distance from the start of the entry. */
  predicate InStep(x: Range, pa: nat, va: nat) {
    va - x.data.va == pa - x.lo
  }

  /** `v` lies in the virtual range of the entry. */
  predicate HasVirtual(x: Range, v: nat) {
    x.data.va <= v < x.data.va + (x.hi - x.lo)
  }

  /** An entry takes a range exactly if it holds every physical and every virtual address of it; in step the two are the same. */
  lemma InsideExactly(x: Range, pa: nat, va: nat, sz: nat)
    requires x.Has(pa) && sz > 0
    ensures Inside(x, pa, va, sz) <==>
            (forall p: nat | pa <= p < pa + sz :: x.Has(p)) && (forall v: nat | va <= v < va + sz :: HasVirtual(x, v))
    ensures InStep(x, pa, va) ==> (Inside(x, pa, va, sz) <==> forall p: nat | pa <= p < pa + sz :: x.Has(p))
  {
    var p, v := pa + sz - 1, va + sz - 1;
    assert x.Has(p) <==> pa + sz <= x.hi;
    assert HasVirtual(x, va) && HasVirtual(x, v) <==> x.data.va <= va && va + sz <= x.data.va + (x.hi - x.lo);
  }

  datatype Event = Add(pa: nat, va: nat, sz: nat, flags: nat) | Del(pa: nat, va: nat, sz: nat)

  /** A call that was refused changes nothing; one that was accepted does what the operations promise. */
  ghost predicate Step(s: set<Range>, e: Event, s': set<Range>) {
    s' == s ||
    match e
    case Add(pa, va, sz, flags) => sz > 0 && Added(s, pa, va, sz, flags, s')
    case Del(pa, va, sz) => sz > 0 && exists x :: x in s && x.Has(pa) && Deleted(s, x, pa, va, sz, s')
  }

  /** A reference less on `x`, or, with the last one and a range in step with it, what is left of it on both sides. */
  ghost predicate Deleted(s: set<Range>, x: Range, pa: nat, va: nat, sz: nat, s': set<Range>)
    requires x.Has(pa)
  {
    && Inside(x, pa, va, sz)
    && if x.data.refs > 1 then s' == s - {x} + {x.(data := x.data.(refs := x.data.refs - 1))}
       else InStep(x, pa, va) && s' == s - {x} + Residues(x, pa, sz)
  }

  class Index {
    const capacity: nat
    var count: nat
    var root: Tree<Entry>

    ghost function All(): set<Range>
      reads this
    {
      Items(root)
    }

    ghost predicate Valid()
      reads this
    {
      Ordered(root) && |Items(root)| == count <= capacity && forall x | x in Items(root) :: x.data.refs > 0
    }

    constructor (capacity: nat)
      ensures Valid() && All() == {} && this.capacity == capacity
    {
      this.capacity, count, root := capacity, 0, Leaf;
    }

    /**
      Adds a reference to the entry that holds `pa`, or makes a new entry.  The new entry is refused when the table
      is full; if it meets an entry behind `pa`, the machine stops.
     */
    method Add(pa: nat, va: nat, sz: nat, flags: nat) returns (rc: Rc)
      requires Valid() && sz > 0
      modifies this
      ensures Valid()
      ensures rc != Ok ==> All() == old(All())
      ensures rc == Invalid <==> exists x | x in old(All()) :: x.Has(pa) && !(x.lo <= x.hi && Inside(x, pa, va, sz) && x.data.flags == flags)
      ensures rc == NoMemory <==> (forall x | x in old(All()) :: !x.Has(pa)) && old(count) == capacity
      ensures rc == Panic <==> (forall x | x in old(All()) :: !x.Has(pa)) && old(count) < capacity
                               && exists x | x in old(All()) :: x.Meets(pa, pa + sz)
      ensures rc == Ok || rc == Invalid || rc == NoMemory || rc == Panic
      ensures rc != Ok <==> Refused(old(All()), pa, va, sz, flags, old(count) == capacity)
      ensures rc == Ok ==> Added(old(All()), pa, va, sz, flags, All())
      ensures Step(old(All()), Event.Add(pa, va, sz, flags), All())
    {
      hide Ordered, Items, Inside, Refused, Added, Step;
      var e := Find(root, pa);
      if e.Some? {
        var x := e.value;
        ItemsAreProper(root, x);
        AddToEntry(All(), x, pa, va, sz, flags, count == capacity);
        if !Inside(x, pa, va, sz) || x.data.flags != flags {
          return Invalid;
        }
        AddReference(x);
        return Ok;
      }
      AddAsEntry(All(), pa, va, sz, flags, count == capacity);
      if count == capacity {
        return NoMemory;
      }
      var ok := AddEntry(Item(pa, pa + sz, Entry(va, flags, 1)));
      return if ok then Ok else Panic;
    }

    method AddReference(x: Range)
      requires Valid() && x in All()
      modifies this`root
      ensures Valid() && All() == old(All()) - {x} + {x.(data := x.data.(refs := x.data.refs + 1))}
    {
      hide Ordered, Items, Update;
      var d := x.data.(refs := x.data.refs + 1);
      UpdateIsOrdered(root, x, d);
      SameSize(root, x, d);
      root := Update(root, x.lo, d);
    }

    method AddEntry(x: Range) returns (ok: bool)
      requires Valid() && x.lo < x.hi && x.data.refs > 0 && count < capacity
      modifies this
      ensures Valid()
      ensures ok <==> forall y | y in old(All()) :: !y.Meets(x.lo, x.hi)
      ensures All() == if ok then old(All()) + {x} else old(All())
      ensures count == old(count) + if ok then 1 else 0
    {
      hide Ordered, Items, Insert;
      InsertIsOrdered(root, x);
      var r := Insert(root, x);
      if r.None? {
        return false;
      }
      assert x !in Items(root) by { assert x.Meets(x.lo, x.hi); }
      root, count := r.value, count + 1;
      return true;
    }

    /**
      Takes a reference off the entry that holds `pa`.  With the last one the entry goes, and what lies before and
      behind the given range is added again.
     */
    method Del(pa: nat, va: nat, sz: nat) returns (rc: Rc, ghost x: Range)
      requires Valid() && sz > 0
      modifies this
      ensures Valid()
      ensures rc == NotAvailable <==> forall y | y in old(All()) :: !y.Has(pa)
      ensures rc != NotAvailable ==> x in old(All()) && x.Has(pa)
      ensures rc == Invalid <==> exists y | y in old(All()) :: y.Has(pa) && !(y.lo <= y.hi && Inside(y, pa, va, sz))
      ensures rc == NotAvailable || rc == Invalid ==> All() == old(All())
      ensures rc == Busy ==> x.data.refs > 1 && All() == old(All()) - {x} + {x.(data := x.data.(refs := x.data.refs - 1))}
      ensures rc != NoMemory && (rc == Ok || rc == Panic ==> x.data.refs == 1)
      ensures rc == Ok ==> (OnlyGone(old(All()), All(), pa, sz) <==> InStep(x, pa, va))
      ensures rc == Busy <==> exists y | y in old(All()) :: y.Has(pa) && y.lo <= y.hi && Inside(y, pa, va, sz) && y.data.refs > 1
      ensures rc == Ok || rc == Panic ==> (rc == Panic <==> Fatal(old(All()), x, pa, va, sz, old(count) == capacity))
      ensures rc == Ok ==> Replaced(old(All()), x, pa, va, sz, All())
      ensures (rc == Ok || rc == Panic) && InStep(x, pa, va) ==>
                && (rc == Panic <==> x.lo < pa && pa + sz < x.hi && old(count) == capacity)
                && (rc == Ok ==> All() == old(All()) - {x} + Residues(x, pa, sz))
      ensures rc != Panic && (rc == Ok ==> InStep(x, pa, va)) ==> Step(old(All()), Event.Del(pa, va, sz), All())
    {
      hide Ordered, Items, OnlyGone, Fatal, Replaced;
      var e := Find(root, pa);
      if e.None? {
        x := Item(0, 0, Entry(0, 0, 0));
        return NotAvailable, x;
      }
      var y := e.value;
      ItemsAreProper(root, y);
      if !Inside(y, pa, va, sz) {
        return Invalid, y;
      }
      if y.data.refs > 1 {
        DropReference(y);
        return Busy, y;
      }
      rc := RemoveLast(y, pa, va, sz);
      return rc, y;
    }

    /** The virtual address of `pa`, and how much follows, as the code computes them. */
    method Pa2Va(pa: nat) returns (rc: Rc, va: int, sz: int, ghost x: Range)
      requires Valid()
      ensures rc == NotAvailable <==> forall y | y in All() :: !y.Has(pa)
      ensures rc != NotAvailable ==> rc == Ok && x in All() && x.Has(pa) && Maps(All(), pa, x.data.va + (pa - x.lo))
      ensures rc == Ok ==> (va == x.data.va + (pa - x.lo) <==> pa == x.lo) && (sz == x.hi - pa <==> pa == x.lo)
    {
      var e := Find(root, pa);
      if e.None? {
        x := Item(0, 0, Entry(0, 0, 0));
        return NotAvailable, 0, 0, x;
      }
      var y := e.value;
      return Ok, y.data.va + (y.lo - pa), (y.hi - y.lo) - (y.lo - pa), y;
    }

    method DropReference(x: Range)
      requires Valid() && x in All() && x.data.refs > 1
      modifies this`root
      ensures Valid() && All() == old(All()) - {x} + {x.(data := x.data.(refs := x.data.refs - 1))}
    {
      hide Ordered, Items, Update;
      var d := x.data.(refs := x.data.refs - 1);
      UpdateIsOrdered(root, x, d);
      SameSize(root, x, d);
      root := Update(root, x.lo, d);
    }

    method EraseEntry(x: Range)
      requires Valid() && x in All()
      modifies this
      ensures Valid() && All() == old(All()) - {x} && count == old(count) - 1
    {
      hide Ordered, Items, Erase;
      EraseIsOrdered(root, x);
      root, count := Erase(root, x.lo), count - 1;
    }

    method RemoveLast(x: Range, pa: nat, va: nat, sz: nat) returns (rc: Rc)
      requires Valid() && x in All() && x.Has(pa) && x.lo < x.hi && Inside(x, pa, va, sz) && sz > 0
      modifies this
      ensures Valid() && (rc == Ok || rc == Panic)
      ensures rc == Ok ==> (OnlyGone(old(All()), All(), pa, sz) <==> InStep(x, pa, va))
      ensures rc == Panic <==> Fatal(old(All()), x, pa, va, sz, old(count) == capacity)
      ensures rc == Ok ==> Replaced(old(All()), x, pa, va, sz, All())
      ensures InStep(x, pa, va) ==>
                && (rc == Panic <==> x.lo < pa && pa + sz < x.hi && old(count) == capacity)
                && (rc == Ok ==> All() == old(All()) - {x} + Residues(x, pa, sz))
    {
      hide Ordered, Items, OnlyGone, AwayFrom, Added, Fatal, Replaced, Refused, Step, Residues;
      ghost var all := All();
      Apart(root, x);
      var left := va - x.data.va;
      var right := x.data.va + (x.hi - x.lo) - (va + sz);
      EraseEntry(x);
      ghost var rest := All();
      NoneInTheWay(rest, x, left, x.data.va, x.data.flags);
      LeftIsTaken(rest, x, left, count == capacity);
      if left > 0 {
        rc := Add(x.lo, x.data.va, left, x.data.flags);
        assert rc == Ok;
      }
      ghost var mid := All();
      FatalIs(all, x, pa, va, sz, old(count) == capacity);
      if right > 0 {
        RefusedBehind(rest, x, pa, va, sz, count == capacity);
        rc := Add(pa + sz, va + sz, right, x.data.flags);
        if rc != Ok {
          return Panic;
        }
      }
      ReplacedIs(all, x, pa, va, sz, All());
      if InStep(x, pa, va) {
        RightAdded(rest, x, pa, va, sz, All());
        ExactlyGone(all, x, pa, va, sz);
      } else {
        NotExactlyGone(all, x, pa, va, sz, All());
      }
      return Ok;
    }
  }

  lemma AddToEntry(items: set<Range>, x: Range, pa: nat, va: nat, sz: nat, flags: nat, full: bool)
    requires x in items && x.Has(pa) && x.lo <= x.hi && sz > 0 && forall y | y in items && y.Has(pa) :: y == x
    ensures Refused(items, pa, va, sz, flags, full) <==> !(Inside(x, pa, va, sz) && x.data.flags == flags)
    ensures Step(items, Event.Add(pa, va, sz, flags), items)
    ensures var more := items - {x} + {x.(data := x.data.(refs := x.data.refs + 1))};
            Inside(x, pa, va, sz) && x.data.flags == flags ==>
              Added(items, pa, va, sz, flags, more) && Step(items, Event.Add(pa, va, sz, flags), more)
  {
    hide Inside;
  }

  lemma AddAsEntry(items: set<Range>, pa: nat, va: nat, sz: nat, flags: nat, full: bool)
    requires sz > 0 && forall y | y in items :: !y.Has(pa)
    ensures Refused(items, pa, va, sz, flags, full) <==> full || exists y | y in items :: y.Meets(pa, pa + sz)
    ensures Step(items, Event.Add(pa, va, sz, flags), items)
    ensures var more := items + {Item(pa, pa + sz, Entry(va, flags, 1))};
            (forall y | y in items :: !y.Meets(pa, pa + sz)) ==>
              Added(items, pa, va, sz, flags, more) && Step(items, Event.Add(pa, va, sz, flags), more)
  {
    hide Inside;
  }

  /** An addition is refused: an entry is there that does not take it; or there is none, and no room for a new one. */
  ghost predicate Refused(items: set<Range>, pa: nat, va: nat, sz: nat, flags: nat, full: bool) {
    || (exists y | y in items :: y.Has(pa) && !(y.lo <= y.hi && Inside(y, pa, va, sz) && y.data.flags == flags))
    || ((forall y | y in items :: !y.Has(pa)) && (full || exists y | y in items :: y.Meets(pa, pa + sz)))
  }

  /**
    With the last reference on `x` gone, what lies behind the given range cannot be added again: it begins in what is
    left before the range, or the other entries are in its way.
   */
  ghost predicate Fatal(all: set<Range>, x: Range, pa: nat, va: nat, sz: nat, full: bool)
    requires x.lo <= x.hi
  {
    var left, right := va - x.data.va, x.data.va + (x.hi - x.lo) - (va + sz);
    right > 0 && (pa + sz < x.lo + left || Refused(all - {x}, pa + sz, va + sz, right, x.data.flags, left > 0 && full))
  }

  /** Instead of `x` there is what lies before the range, and what lies behind it is added. */
  ghost predicate Replaced(all: set<Range>, x: Range, pa: nat, va: nat, sz: nat, items: set<Range>)
    requires x.lo <= x.hi && x.Has(pa) && Inside(x, pa, va, sz)
  {
    var mid, right := all - {x} + Piece(x.lo, x.data.va, va - x.data.va, x.data.flags), x.data.va + (x.hi - x.lo) - (va + sz);
    if right > 0 then Added(mid, pa + sz, va + sz, right, x.data.flags, items) else items == mid
  }

  lemma ReplacedIs(all: set<Range>, x: Range, pa: nat, va: nat, sz: nat, items: set<Range>)
    requires x.Has(pa) && Inside(x, pa, va, sz)
    ensures Replaced(all, x, pa, va, sz, items) <==>
            var mid, right := all - {x} + Piece(x.lo, x.data.va, va - x.data.va, x.data.flags), x.data.va + (x.hi - x.lo) - (va + sz);
            if right > 0 then Added(mid, pa + sz, va + sz, right, x.data.flags, items) else items == mid
  {
  }

  /** What is left before the range is in the way exactly if the rest begins in it. */
  lemma RefusedBehind(rest: set<Range>, x: Range, pa: nat, va: nat, sz: nat, full: bool)
    requires AwayFrom(rest, x) && x.Has(pa) && Inside(x, pa, va, sz) && sz > 0 && va + sz < x.data.va + (x.hi - x.lo)
    ensures var left, right := va - x.data.va, x.data.va + (x.hi - x.lo) - (va + sz);
            Refused(rest + Piece(x.lo, x.data.va, left, x.data.flags), pa + sz, va + sz, right, x.data.flags, full) <==>
            pa + sz < x.lo + left || Refused(rest, pa + sz, va + sz, right, x.data.flags, full)
  {
    var at, left, right := pa + sz, va - x.data.va, x.data.va + (x.hi - x.lo) - (va + sz);
    var piece := Item(x.lo, x.lo + left, Entry(x.data.va, x.data.flags, 1));
    var mid := rest + Piece(x.lo, x.data.va, left, x.data.flags);
    if left == 0 {
      assert mid == rest;
    } else if at < x.lo + left {
      assert piece in mid && piece.Has(at) && !Inside(piece, at, va + sz, right);
    } else {
      assert forall y | y in mid :: y in rest || y == piece;
      assert !piece.Has(at) && !piece.Meets(at, at + right);
    }
  }

  lemma FatalIs(all: set<Range>, x: Range, pa: nat, va: nat, sz: nat, full: bool)
    requires AwayFrom(all - {x}, x) && x.Has(pa) && Inside(x, pa, va, sz) && sz > 0
    ensures var left, right := va - x.data.va, x.data.va + (x.hi - x.lo) - (va + sz);
            && (Fatal(all, x, pa, va, sz, full) <==>
                right > 0 && (pa + sz < x.lo + left || Refused(all - {x}, pa + sz, va + sz, right, x.data.flags, left > 0 && full)))
            && (InStep(x, pa, va) ==> (Fatal(all, x, pa, va, sz, full) <==> x.lo < pa && pa + sz < x.hi && full))
  {
    if InStep(x, pa, va) {
      FatalInStep(all, x, pa, va, sz, full);
    }
  }

  /** In step there is just the question whether a second entry is needed and can be had. */
  lemma FatalInStep(all: set<Range>, x: Range, pa: nat, va: nat, sz: nat, full: bool)
    requires AwayFrom(all - {x}, x) && x.Has(pa) && Inside(x, pa, va, sz) && sz > 0 && InStep(x, pa, va)
    ensures Fatal(all, x, pa, va, sz, full) <==> x.lo < pa && pa + sz < x.hi && full
  {
  }

  /** A deletion out of step that is fatal though the table has room: the residue behind it begins in the one before it. */
  lemma FatalOutOfStep(full: bool) returns (x: Range)
    ensures x.Has(0) && Inside(x, 0, 0x2000, 0x800) && x.data.refs == 1 && Fatal({x}, x, 0, 0x2000, 0x800, full)
  {
    x := Item(0, 0x3000, Entry(0, 0, 1));
  }

  /** The entry of a range that was added `n` times. */
  function Shared(pa: nat, va: nat, sz: nat, flags: nat, n: nat): Range {
    Item(pa, pa + sz, Entry(va, flags, n))
  }

  /** An entry takes the range it was made for, in step, and gives it back whole. */
  lemma SharedTakes(s: set<Range>, pa: nat, va: nat, sz: nat, flags: nat, n: nat)
    requires sz > 0 && forall y | y in s :: !y.Meets(pa, pa + sz)
    ensures var x := Shared(pa, va, sz, flags, n);
            && x.Has(pa) && x !in s && Inside(x, pa, va, sz) && InStep(x, pa, va)
            && Residues(x, pa, sz) == {} && s + {x} - {x} == s
    ensures forall y | y in s :: !y.Has(pa)
  {
    var x := Shared(pa, va, sz, flags, n);
    InsideExactly(x, pa, va, sz);
    assert x.Meets(pa, pa + sz);
    forall y | y in s ensures !y.Has(pa) {
      assert !y.Meets(pa, pa + sz);
    }
  }

  /** Nothing meets the range but the entry of a range that was added `n` times, if it was. */
  ghost predicate SharedIn(index: Index, s: set<Range>, pa: nat, va: nat, sz: nat, flags: nat, n: nat)
    reads index
  {
    && index.Valid() && sz > 0 && (forall y | y in s :: !y.Meets(pa, pa + sz))
    && index.All() == if n == 0 then s else s + {Shared(pa, va, sz, flags, n)}
  }

  lemma AddedOnce(all: set<Range>, s: set<Range>, pa: nat, va: nat, sz: nat, flags: nat, n: nat, all': set<Range>)
    requires sz > 0 && (forall y | y in s :: !y.Meets(pa, pa + sz)) && Added(all, pa, va, sz, flags, all')
    requires all == if n == 0 then s else s + {Shared(pa, va, sz, flags, n)}
    ensures all' == s + {Shared(pa, va, sz, flags, n + 1)}
  {
    hide Inside;
    SharedTakes(s, pa, va, sz, flags, n);
    if n > 0 {
      var x := Shared(pa, va, sz, flags, n);
      assert x in all && x.Has(pa);
      assert forall y | y in all && y.Has(pa) :: y == x;
    }
  }

  method AddShared(index: Index, ghost s: set<Range>, pa: nat, va: nat, sz: nat, flags: nat, ghost n: nat) returns (rc: Rc)
    requires SharedIn(index, s, pa, va, sz, flags, n) && (n == 0 ==> index.count < index.capacity)
    modifies index
    ensures rc == Ok && SharedIn(index, s, pa, va, sz, flags, n + 1)
  {
    hide Refused, Step, Inside, Ordered, Items, Added;
    SharedTakes(s, pa, va, sz, flags, n);
    ghost var all := index.All();
    rc := index.Add(pa, va, sz, flags);
    AddedOnce(all, s, pa, va, sz, flags, n, index.All());
  }

  method DelShared(index: Index, ghost s: set<Range>, pa: nat, va: nat, sz: nat, ghost flags: nat, ghost n: nat) returns (rc: Rc)
    requires SharedIn(index, s, pa, va, sz, flags, n) && n > 0
    modifies index
    ensures rc == (if n == 1 then Ok else Busy) && SharedIn(index, s, pa, va, sz, flags, n - 1)
  {
    hide Fatal, Replaced, OnlyGone, Step, Inside, Ordered, Items, Residues, InStep;
    SharedTakes(s, pa, va, sz, flags, n);
    ghost var y;
    rc, y := index.Del(pa, va, sz);
    assert y == Shared(pa, va, sz, flags, n);
    assert s + {y} - {y} + {Shared(pa, va, sz, flags, n - 1)} == s + {Shared(pa, va, sz, flags, n - 1)};
  }

  /** Adding a range that is free and deleting it again succeeds, and leaves the index as it was. */
  method AddThenDel(index: Index, pa: nat, va: nat, sz: nat, flags: nat) returns (added: Rc, deleted: Rc)
    requires index.Valid() && sz > 0 && index.count < index.capacity && forall y | y in index.All() :: !y.Meets(pa, pa + sz)
    modifies index
    ensures index.Valid() && added == Ok && deleted == Ok && index.All() == old(index.All())
  {
    hide SharedIn, Ordered, Items;
    ghost var s := index.All();
    SharedNone(index, s, pa, va, sz, flags);
    added := AddShared(index, s, pa, va, sz, flags, 0);
    deleted := DelShared(index, s, pa, va, sz, flags, 1);
    SharedNone(index, s, pa, va, sz, flags);
  }

  /** A range that was added `n` times is deleted `n` times: only the last deletion takes it out. */
  method ShareAndReturn(index: Index, pa: nat, va: nat, sz: nat, flags: nat, n: nat) returns (rcs: seq<Rc>)
    requires index.Valid() && sz > 0 && index.count < index.capacity && forall y | y in index.All() :: !y.Meets(pa, pa + sz)
    modifies index
    ensures index.Valid() && index.All() == old(index.All()) && |rcs| == 2 * n
    ensures forall i | 0 <= i < 2 * n :: rcs[i] == if i < n || i == 2 * n - 1 then Ok else Busy
  {
    hide SharedIn, Ordered, Items;
    ghost var s := index.All();
    rcs := [];
    SharedNone(index, s, pa, va, sz, flags);
    for i := 0 to n
      invariant SharedIn(index, s, pa, va, sz, flags, i) && |rcs| == i && (i == 0 ==> index.count < index.capacity)
      invariant forall j | 0 <= j < i :: rcs[j] == Ok
    {
      var rc := AddShared(index, s, pa, va, sz, flags, i);
      rcs := rcs + [rc];
    }
    for i := 0 to n
      invariant SharedIn(index, s, pa, va, sz, flags, n - i) && |rcs| == n + i
      invariant forall j | 0 <= j < n + i :: rcs[j] == if j < n || j == 2 * n - 1 then Ok else Busy
    {
      var rc := DelShared(index, s, pa, va, sz, flags, n - i);
      rcs := rcs + [rc];
    }
    SharedNone(index, s, pa, va, sz, flags);
  }

  lemma SharedNone(index: Index, s: set<Range>, pa: nat, va: nat, sz: nat, flags: nat)
    requires sz > 0 && forall y | y in s :: !y.Meets(pa, pa + sz)
    ensures SharedIn(index, s, pa, va, sz, flags, 0) <==> index.Valid() && index.All() == s
  {
  }

  /** All entries are proper and have nothing in common with `x`. */
  ghost predicate AwayFrom(rest: set<Range>, x: Range) {
    forall y | y in rest :: y.lo < y.hi && (y.hi <= x.lo || x.hi <= y.lo)
  }

  lemma Apart(t: Tree<Entry>, x: Range)
    requires Ordered(t) && x in Items(t)
    ensures AwayFrom(Items(t) - {x}, x)
  {
    forall y | y in Items(t) - {x} ensures y.lo < y.hi && (y.hi <= x.lo || x.hi <= y.lo) {
      ItemsAreProper(t, y);
      ItemsAreDisjoint(t, x, y);
    }
  }

  lemma LeftIsTaken(rest: set<Range>, x: Range, left: nat, full: bool)
    requires AwayFrom(rest, x) && x.lo < x.hi && left < x.hi - x.lo && !full
    ensures !Refused(rest, x.lo, x.data.va, left, x.data.flags, full)
  {
  }

  lemma NoneInTheWay(rest: set<Range>, x: Range, left: nat, va: nat, flags: nat)
    requires AwayFrom(rest, x) && x.lo < x.hi && left < x.hi - x.lo
    ensures forall y | y in rest :: !y.Has(x.lo) && !y.Meets(x.lo, x.lo + left)
    ensures left > 0 ==> forall items :: Added(rest, x.lo, va, left, flags, items) ==> items == rest + Piece(x.lo, va, left, flags)
  {
  }

  lemma RightIsFree(rest: set<Range>, x: Range, pa: nat, va: nat, sz: nat)
    requires AwayFrom(rest, x) && x.Has(pa) && Inside(x, pa, va, sz) && sz > 0 && InStep(x, pa, va)
    ensures var mid, right := rest + Piece(x.lo, x.data.va, va - x.data.va, x.data.flags), x.data.va + (x.hi - x.lo) - (va + sz);
            && pa + sz + right == x.hi
            && forall y | y in mid :: (right > 0 ==> !y.Has(pa + sz)) && !y.Meets(pa + sz, pa + sz + right)
  {
  }

  lemma RightAdded(rest: set<Range>, x: Range, pa: nat, va: nat, sz: nat, items: set<Range>)
    requires AwayFrom(rest, x) && x.Has(pa) && Inside(x, pa, va, sz) && sz > 0 && InStep(x, pa, va)
    requires var mid, right := rest + Piece(x.lo, x.data.va, va - x.data.va, x.data.flags), x.data.va + (x.hi - x.lo) - (va + sz);
             if right > 0 then Added(mid, pa + sz, va + sz, right, x.data.flags, items) else items == mid
    ensures items == rest + Residues(x, pa, sz)
  {
    RightIsFree(rest, x, pa, va, sz);
  }

  /** In step, the residues map what `x` mapped outside the range. */
  lemma ExactlyGone(all: set<Range>, x: Range, pa: nat, va: nat, sz: nat)
    requires x in all && AwayFrom(all - {x}, x) && x.Has(pa) && Inside(x, pa, va, sz) && sz > 0 && InStep(x, pa, va)
    ensures OnlyGone(all, all - {x} + Residues(x, pa, sz), pa, sz)
  {
    var items := all - {x} + Residues(x, pa, sz);
    forall p: nat, v: nat ensures Maps(items, p, v) <==> Maps(all, p, v) && !(pa <= p < pa + sz) {
      GoneAt(all, x, pa, va, sz, p, v);
    }
  }

  lemma GoneAt(all: set<Range>, x: Range, pa: nat, va: nat, sz: nat, p: nat, v: nat)
    requires x in all && AwayFrom(all - {x}, x) && x.Has(pa) && Inside(x, pa, va, sz) && sz > 0 && InStep(x, pa, va)
    ensures Maps(all - {x} + Residues(x, pa, sz), p, v) <==> Maps(all, p, v) && !(pa <= p < pa + sz)
  {
    var items := all - {x} + Residues(x, pa, sz);
    if Maps(items, p, v) {
      var y :| y in items && y.Has(p) && v == y.data.va + (p - y.lo);
      assert if y in all then y in all - {x} || y == x else x.Has(p) && v == x.data.va + (p - x.lo);
    }
    if Maps(all, p, v) && !(pa <= p < pa + sz) {
      var y :| y in all && y.Has(p) && v == y.data.va + (p - y.lo);
      if y != x {
        assert y in items;
      } else if p < pa {
        assert Item(x.lo, x.lo + (pa - x.lo), Entry(x.data.va, x.data.flags, 1)) in items;
      } else {
        assert Item(pa + sz, pa + sz + (x.hi - (pa + sz)), Entry(x.data.va + (pa + sz - x.lo), x.data.flags, 1)) in items;
      }
    }
  }

  /** Out of step, an address of the range is still mapped, or one before it is lost. */
  lemma NotExactlyGone(all: set<Range>, x: Range, pa: nat, va: nat, sz: nat, items: set<Range>)
    requires x in all && AwayFrom(all - {x}, x) && x.Has(pa) && Inside(x, pa, va, sz) && sz > 0 && !InStep(x, pa, va)
    requires var mid, right := all - {x} + Piece(x.lo, x.data.va, va - x.data.va, x.data.flags), x.data.va + (x.hi - x.lo) - (va + sz);
             if right > 0 then Added(mid, pa + sz, va + sz, right, x.data.flags, items) else items == mid
    ensures !OnlyGone(all, items, pa, sz)
  {
    var left := va - x.data.va;
    var y := Item(x.lo, x.lo + left, Entry(x.data.va, x.data.flags, 1));
    if left > pa - x.lo {
      assert y.Has(pa);
      var z :| z in items && z.lo == y.lo && z.hi == y.hi;
      assert Maps(items, pa, z.data.va + (pa - z.lo));
    } else {
      var p := x.lo + left;
      assert Maps(all, p, x.data.va + left);
      assert forall z | z in items :: !z.Has(p);
      assert !Maps(items, p, x.data.va + left);
    }
  }

  /** The entries that replace `x` when the range of `sz` bytes at `pa` is taken out of it. */
  function Residues(x: Range, pa: nat, sz: nat): set<Range>
    requires x.Has(pa)
  {
    Piece(x.lo, x.data.va, pa - x.lo, x.data.flags)
    + if pa + sz < x.hi then Piece(pa + sz, x.data.va + (pa + sz - x.lo), x.hi - (pa + sz), x.data.flags) else {}
  }

  function Piece(pa: nat, va: nat, sz: nat, flags: nat): set<Range> {
    if sz > 0 then {Item(pa, pa + sz, Entry(va, flags, 1))} else {}
  }

  /** The addresses of the range are no longer mapped, and all others are mapped as before. */
  ghost predicate OnlyGone(items: set<Range>, items': set<Range>, pa: nat, sz: nat) {
    forall p: nat, v: nat :: Maps(items', p, v) <==> Maps(items, p, v) && !(pa <= p < pa + sz)
  }

  /** A reference more on the entry that holds `pa`, or a new entry. */
  ghost predicate Added(items: set<Range>, pa: nat, va: nat, sz: nat, flags: nat, items': set<Range>) {
    if exists x :: x in items && x.Has(pa) then
      exists x :: x in items && x.Has(pa) && x.data.flags == flags && x.lo <= x.hi && Inside(x, pa, va, sz)
                  && items' == items - {x} + {x.(data := x.data.(refs := x.data.refs + 1))}
    else items' == items + {Item(pa, pa + sz, Entry(va, flags, 1))} && forall x | x in items :: !x.Meets(pa, pa + sz)
  }

  /** Nothing that was mapped changes; what the caller asked for is mapped exactly if it is in step with the entry there. */
  lemma AddedMaps(items: set<Range>, pa: nat, va: nat, sz: nat, flags: nat, items': set<Range>, p: nat, v: nat)
    requires Added(items, pa, va, sz, flags, items') && sz > 0
    ensures Maps(items, p, v) ==> Maps(items', p, v)
    ensures Maps(items', p, v) ==> Maps(items, p, v) || (pa <= p < pa + sz && v == va + (p - pa) && forall x | x in items :: !x.Has(pa))
  {
    if Maps(items, p, v) {
      var y :| y in items && y.Has(p) && v == y.data.va + (p - y.lo);
      if y !in items' {
        var z := y.(data := y.data.(refs := y.data.refs + 1));
        assert z in items' && z.Has(p);
      }
    }
    if Maps(items', p, v) {
      var y :| y in items' && y.Has(p) && v == y.data.va + (p - y.lo);
      if y !in items && exists x :: x in items && x.Has(pa) {
        var x :| x in items && x.Has(pa) && items' == items - {x} + {x.(data := x.data.(refs := x.data.refs + 1))};
        assert x.Has(p);
      }
    }
  }

  lemma AddedServes(t: Tree<Entry>, pa: nat, va: nat, sz: nat, flags: nat, items': set<Range>)
    requires Ordered(t) && Added(Items(t), pa, va, sz, flags, items') && sz > 0
    ensures Maps(items', pa, va) <==> forall x | x in Items(t) && x.Has(pa) :: InStep(x, pa, va)
  {
    hide Ordered, Items;
    if x :| x in Items(t) && x.Has(pa) {
      Apart(t, x);
      var y :| y in Items(t) && y.Has(pa) && items' == Items(t) - {y} + {y.(data := y.data.(refs := y.data.refs + 1))};
      assert y == x;
      assert x.(data := x.data.(refs := x.data.refs + 1)) in items';
    } else {
      assert Item(pa, pa + sz, Entry(va, flags, 1)) in items';
    }
  }

  lemma SameSize(t: Tree<Entry>, x: Range, d: Entry)
    requires Ordered(t) && x in Items(t)
    ensures |Items(t) - {x} + {x.(data := d)}| == |Items(t)|
  {
    var y := x.(data := d);
    ItemsAreProper(t, x);
    if y in Items(t) && y != x {
      ItemsAreDisjoint(t, x, y);
    }
    assert y !in Items(t) - {x};
  }
}
