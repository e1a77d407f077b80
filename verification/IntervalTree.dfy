/**
  Search trees over disjoint intervals.  How the red-black trees of the code are balanced is left open: every
  result holds for any ordered tree with the same nodes, and rotations lead from one to another.
 */
module IntervalTree {
  import opened Options

  /** The addresses from `lo` up to, but not including, `hi`. */
  datatype Item<T> = Item(lo: nat, hi: nat, data: T) {
    predicate Has(a: nat) {
      lo <= a < hi
    }

    /** Neither lies completely before the other. */
    predicate Meets(l: nat, h: nat) {
      l < hi && lo < h
    }
  }

  datatype Tree<T> = Leaf | Node(left: Tree<T>, item: Item<T>, right: Tree<T>)

  ghost function Items<T>(t: Tree<T>): set<Item<T>> {
    match t
    case Leaf => {}
    case Node(l, x, r) => Items(l) + {x} + Items(r)
  }

  ghost predicate Before<T>(s: set<Item<T>>, a: nat) {
    forall x | x in s :: x.hi <= a
  }

  ghost predicate After<T>(s: set<Item<T>>, a: nat) {
    forall x | x in s :: a <= x.lo
  }

  ghost predicate Ordered<T>(t: Tree<T>) {
    match t
    case Leaf => true
    case Node(l, x, r) => Ordered(l) && Ordered(r) && x.lo < x.hi && Before(Items(l), x.lo) && After(Items(r), x.hi)
  }

  lemma {:induction false} ItemsAreProper<T>(t: Tree<T>, x: Item<T>)
    requires Ordered(t) && x in Items(t)
    ensures x.lo < x.hi
  {
    if x in Items(t.left) {
      ItemsAreProper(t.left, x);
    } else if x in Items(t.right) {
      ItemsAreProper(t.right, x);
    }
  }

  /** Different nodes have no address in common. */
  lemma {:induction false} ItemsAreDisjoint<T>(t: Tree<T>, x: Item<T>, y: Item<T>)
    requires Ordered(t) && x in Items(t) && y in Items(t) && x != y
    ensures x.hi <= y.lo || y.hi <= x.lo
  {
    ItemsAreProper(t, x);
    ItemsAreProper(t, y);
    if x in Items(t.left) && y in Items(t.left) {
      ItemsAreDisjoint(t.left, x, y);
    } else if x in Items(t.right) && y in Items(t.right) {
      ItemsAreDisjoint(t.right, x, y);
    }
  }

  /** The node that holds `a`, found by descending from the root; there is no other, and none at all if none is found. */
  method Find<T>(t: Tree<T>, a: nat) returns (r: Option<Item<T>>)
    requires Ordered(t)
    ensures r.Some? ==> r.value in Items(t) && r.value.Has(a) && forall x | x in Items(t) && x.Has(a) :: x == r.value
    ensures r == None ==> forall x | x in Items(t) :: !x.Has(a)
  {
    var n := t;
    while n.Node?
      invariant Ordered(n) && Items(n) <= Items(t)
      invariant forall x | x in Items(t) && x.Has(a) :: x in Items(n)
      decreases n
    {
      if a < n.item.lo {
        n := n.left;
      } else if n.item.hi <= a {
        n := n.right;
      } else {
        return Some(n.item);
      }
    }
    return None;
  }

  /** A node that meets the interval `lo..hi`, if there is one. */
  method FindMeeting<T>(t: Tree<T>, lo: nat, hi: nat) returns (r: Option<Item<T>>)
    requires Ordered(t) && lo < hi
    ensures r.Some? ==> r.value in Items(t) && r.value.Meets(lo, hi)
    ensures r == None ==> forall x | x in Items(t) :: !x.Meets(lo, hi)
  {
    var n := t;
    while n.Node?
      invariant Ordered(n) && Items(n) <= Items(t)
      invariant forall x | x in Items(t) && x.Meets(lo, hi) :: x in Items(n)
      decreases n
    {
      if hi <= n.item.lo {
        n := n.left;
      } else if n.item.hi <= lo {
        n := n.right;
      } else {
        return Some(n.item);
      }
    }
    return None;
  }

  // --------------------------------------------------------------- insertion

  /** Links a new node below the node where the descent ends; `None` if a node on the way meets it. */
  function Insert<T>(t: Tree<T>, x: Item<T>): Option<Tree<T>> {
    match t
    case Leaf => Some(Node(Leaf, x, Leaf))
    case Node(l, y, r) =>
      if x.hi <= y.lo then
        var l' := Insert(l, x);
        if l'.None? then None else Some(Node(l'.value, y, r))
      else if y.hi <= x.lo then
        var r' := Insert(r, x);
        if r'.None? then None else Some(Node(l, y, r'.value))
      else None
  }

  /** Insertion succeeds exactly if nothing meets the new item, and then keeps the order. */
  lemma {:induction false} InsertIsOrdered<T>(t: Tree<T>, x: Item<T>)
    requires Ordered(t) && x.lo < x.hi
    ensures Insert(t, x).Some? <==> forall y | y in Items(t) :: !y.Meets(x.lo, x.hi)
    ensures Insert(t, x).Some? ==> Ordered(Insert(t, x).value) && Items(Insert(t, x).value) == Items(t) + {x}
  {
    match t
    case Leaf =>
    case Node(l, y, r) =>
      if x.hi <= y.lo {
        InsertIsOrdered(l, x);
        assert forall z | z in Items(r) :: !z.Meets(x.lo, x.hi);
      } else if y.hi <= x.lo {
        InsertIsOrdered(r, x);
        assert forall z | z in Items(l) :: !z.Meets(x.lo, x.hi);
      } else {
        assert y in Items(t) && y.Meets(x.lo, x.hi);
      }
  }

  // ----------------------------------------------------------------- removal

  /** One tree made of two that lie one after the other. */
  function Join<T>(l: Tree<T>, r: Tree<T>): Tree<T> {
    match l
    case Leaf => r
    case Node(a, x, b) => Node(a, x, Join(b, r))
  }

  lemma {:induction false} JoinIsOrdered<T>(l: Tree<T>, r: Tree<T>, a: nat)
    requires Ordered(l) && Ordered(r) && Before(Items(l), a) && After(Items(r), a)
    ensures Ordered(Join(l, r)) && Items(Join(l, r)) == Items(l) + Items(r)
  {
    match l
    case Leaf =>
    case Node(b, x, c) =>
      JoinIsOrdered(c, r, a);
      assert x in Items(l);
  }

  /** The tree without the node that starts at `lo`. */
  function Erase<T>(t: Tree<T>, lo: nat): Tree<T> {
    match t
    case Leaf => Leaf
    case Node(l, y, r) =>
      if lo < y.lo then Node(Erase(l, lo), y, r)
      else if y.lo < lo then Node(l, y, Erase(r, lo))
      else Join(l, r)
  }

  lemma {:induction false} EraseIsOrdered<T>(t: Tree<T>, x: Item<T>)
    requires Ordered(t) && x in Items(t)
    ensures Ordered(Erase(t, x.lo)) && Items(Erase(t, x.lo)) == Items(t) - {x}
  {
    match t
    case Node(l, y, r) =>
      ItemsAreProper(t, x);
      assert x in Items(l) ==> x.lo < y.lo;
      assert x in Items(r) ==> y.lo < x.lo;
      if x in Items(l) {
        EraseIsOrdered(l, x);
      } else if x in Items(r) {
        EraseIsOrdered(r, x);
      } else {
        JoinIsOrdered(l, r, y.lo);
        assert x !in Items(l) && x !in Items(r);
      }
  }

  // ------------------------------------------------------------------ update

  /** The tree with the data of the node that starts at `lo` replaced. */
  function Update<T>(t: Tree<T>, lo: nat, data: T): Tree<T> {
    match t
    case Leaf => Leaf
    case Node(l, y, r) =>
      if lo < y.lo then Node(Update(l, lo, data), y, r)
      else if y.lo < lo then Node(l, y, Update(r, lo, data))
      else Node(l, y.(data := data), r)
  }

  lemma {:induction false} UpdateIsOrdered<T>(t: Tree<T>, x: Item<T>, data: T)
    requires Ordered(t) && x in Items(t)
    ensures Ordered(Update(t, x.lo, data)) && Items(Update(t, x.lo, data)) == Items(t) - {x} + {x.(data := data)}
  {
    var Node(l, y, r) := t;
    var z := x.(data := data);
    ItemsAreProper(t, x);
    assert x in Items(l) ==> x.lo < y.lo;
    assert x in Items(r) ==> y.lo < x.lo;
    if x in Items(l) {
      UpdateIsOrdered(l, x, data);
      assert x !in Items(r) && x != y;
      UpdateItems(Items(l), y, Items(r), x, z);
    } else if x in Items(r) {
      UpdateIsOrdered(r, x, data);
      assert x !in Items(l) && x != y;
      UpdateItems(Items(r), y, Items(l), x, z);
    } else {
      assert x == y;
    }
  }

  lemma UpdateItems<T>(a: set<Item<T>>, y: Item<T>, b: set<Item<T>>, x: Item<T>, z: Item<T>)
    requires x != y && x !in b
    ensures (a - {x} + {z}) + {y} + b == (a + {y} + b) - {x} + {z}
    ensures b + {y} + (a - {x} + {z}) == (b + {y} + a) - {x} + {z}
  {
  }

  // --------------------------------------------------------------- balancing

  function RotateRight<T>(t: Tree<T>): Tree<T> {
    match t
    case Node(Node(a, x, b), y, c) => Node(a, x, Node(b, y, c))
    case _ => t
  }

  function RotateLeft<T>(t: Tree<T>): Tree<T> {
    match t
    case Node(a, x, Node(b, y, c)) => Node(Node(a, x, b), y, c)
    case _ => t
  }

  /** Rotations keep the order and the nodes. */
  lemma RotationsKeepOrder<T>(t: Tree<T>)
    requires Ordered(t)
    ensures Ordered(RotateRight(t)) && Items(RotateRight(t)) == Items(t)
    ensures Ordered(RotateLeft(t)) && Items(RotateLeft(t)) == Items(t)
  {
    match t
    case Node(Node(a, x, b), y, Node(c, z, d)) =>
      assert x in Items(t.left) && z in Items(t.right);
    case Node(Node(a, x, b), y, Leaf) =>
      assert x in Items(t.left);
    case Node(Leaf, y, Node(c, z, d)) =>
      assert z in Items(t.right);
    case _ =>
  }
}
