/**
  Finding room in the resource tree, and resizing or moving resources that are already in it.
 */
module ResourceAlloc {
  import opened ResourceForest
  import opened ResourceBusy
  import opened ResourceLinks
  import opened ResourceTree
  import opened Alignment

  /** Limits on where a new range may lie. */
  datatype Constraint = Constraint(min: int, max: int, align: int)

  /** `s` could be the start of a range of `size` addresses among the children of `root`, `old` not counted. */
  ghost predicate Slot(f: Forest<Resource>, root: Resource, old_: Resource?, size: int, k: Constraint, s: int)
    requires Closed(f) && root in f.span && k.align > 0
  {
    && s % k.align == 0
    && f.span[root].Contains(Span(s, s + size - 1))
    && k.min <= s && s + size - 1 <= k.max
    && forall c: Resource | ChildOf(f, c, root) && c != old_ :: !f.span[c].Overlaps(Span(s, s + size - 1))
  }

  /** Children up to `prev`, except `old_`, end below `from`, and no slot starts below it. */
  ghost predicate Searched(f: Forest<Resource>, root: Resource, old_: Resource?, size: int, k: Constraint,
                           prev: Ptr<Resource>, from: int)
    requires Closed(f) && root in f.span && k.align > 0
  {
    && f.span[root].lo <= from
    && (forall c: Resource | ChildOf(f, c, root) && c != old_ && prev.To? && prev.id in f.span && f.span[c].lo <= f.span[prev.id].lo ::
          f.span[c].hi < from)
    && (forall s | Slot(f, root, old_, size, k, s) :: from <= s)
  }

  /** The last address of the gap in front of `next`, which takes in `old_` if that is next. */
  ghost function GapTop(f: Forest<Resource>, root: Resource, old_: Resource?, next: Ptr<Resource>): int
    requires root in f.span && (next.To? ==> next.id in f.span)
  {
    match next
    case Null => f.span[root].hi
    case To(n) => if n == old_ then f.span[n].hi else f.span[n].lo - 1
  }

  lemma SearchFails(f: Forest<Resource>, root: Resource, old_: Resource?, size: int, k: Constraint,
                    prev: Ptr<Resource>, next: Ptr<Resource>, from: int, to: int)
    requires WellFormed(f) && root in f.span && k.align > 0 && size > 0
    requires Adjacent(f, root, prev, next) && Searched(f, root, old_, size, k, prev, from)
    requires to == GapTop(f, root, old_, next)
    requires !FitsGap(from, to, size, k)
    ensures forall s | Slot(f, root, old_, size, k, s) :: s + size - 1 > to
    ensures next == Null ==> forall s :: !Slot(f, root, old_, size, k, s)
    ensures next.To? && next.id != old_ ==> forall s | Slot(f, root, old_, size, k, s) :: s > f.span[next.id].hi
  {
    forall s | Slot(f, root, old_, size, k, s) ensures s + size - 1 > to {
      AlignUpLeast(if from < k.min then k.min else from, k.align, s);
    }
  }

  lemma SearchFinds(f: Forest<Resource>, root: Resource, old_: Resource?, size: int, k: Constraint,
                    prev: Ptr<Resource>, next: Ptr<Resource>, from: int, to: int, s: int)
    requires WellFormed(f) && root in f.span && k.align > 0 && size > 0
    requires Adjacent(f, root, prev, next) && Searched(f, root, old_, size, k, prev, from)
    requires to == GapTop(f, root, old_, next)
    requires s == Lowest(from, k) && FitsGap(from, to, size, k)
    ensures Slot(f, root, old_, size, k, s) && forall t | Slot(f, root, old_, size, k, t) :: s <= t
  {
    AlignUpAligned(if from < k.min then k.min else from, k.align);
    forall t | Slot(f, root, old_, size, k, t) ensures s <= t {
      AlignUpLeast(if from < k.min then k.min else from, k.align, t);
    }
    forall c: Resource | ChildOf(f, c, root) && c != old_ ensures !f.span[c].Overlaps(Span(s, s + size - 1)) {
      if next.To? && c != next.id {
        assert !f.span[c].Overlaps(f.span[next.id]);
      }
    }
  }

  /** How far the search has come: `next` is looked at next, and nothing suitable starts below `from`. */
  ghost predicate SearchAt(f: Forest<Resource>, l: Links<Resource>, root: Resource, old_: Resource?, size: int, k: Constraint,
                           prev: Ptr<Resource>, next: Ptr<Resource>, from: int)
    requires Closed(f) && root in f.span && k.align > 0
  {
    && Gap(f, l, root, prev, next) && Adjacent(f, root, prev, next)
    && Searched(f, root, old_, size, k, prev, from)
  }

  lemma SearchStarts(f: Forest<Resource>, l: Links<Resource>, root: Resource, old_: Resource?, size: int, k: Constraint)
    requires WellFormed(f) && Threaded(f, l) && root in f.span && k.align > 0 && size > 0
    ensures SearchAt(f, l, root, old_, size, k, Null, Get(l.first, root), f.span[root].lo)
  {
    GapIsAdjacent(f, l, root, Null, Get(l.first, root));
  }

  lemma SearchSkips(f: Forest<Resource>, l: Links<Resource>, root: Resource, old_: Resource?, size: int, k: Constraint, c: Resource, from: int)
    requires WellFormed(f) && Threaded(f, l) && root in f.span && k.align > 0 && size > 0
    requires Get(l.first, root) == To(c) && c in f.span && f.span[c].lo == f.span[root].lo
    requires from == if c == old_ then f.span[c].lo else f.span[c].hi + 1
    ensures SearchAt(f, l, root, old_, size, k, To(c), Get(l.next, c), from)
  {
    GapIsAdjacent(f, l, root, Null, To(c));
    SkipFirst(f, root, old_, size, k, c, from);
    GapIsAdjacent(f, l, root, To(c), Get(l.next, c));
  }

  lemma SearchMoves(f: Forest<Resource>, l: Links<Resource>, root: Resource, old_: Resource?, size: int, k: Constraint,
                    prev: Ptr<Resource>, c: Resource, from: int, to: int)
    requires WellFormed(f) && Threaded(f, l) && root in f.span && k.align > 0 && size > 0
    requires SearchAt(f, l, root, old_, size, k, prev, To(c), from)
    requires to == GapTop(f, root, old_, To(c)) && !FitsGap(from, to, size, k)
    ensures SearchAt(f, l, root, old_, size, k, To(c), Get(l.next, c), if c == old_ then from else f.span[c].hi + 1)
    ensures c in l.next ==> l.next[c] in f.span && f.span[c].lo < f.span[l.next[c]].lo
    ensures f.span[c].hi == f.span[root].hi ==> forall s :: !Slot(f, root, old_, size, k, s)
  {
    SearchFails(f, root, old_, size, k, prev, To(c), from, to);
    SearchAdvances(f, root, old_, size, k, prev, c, if c == old_ then from else f.span[c].hi + 1);
    GapIsAdjacent(f, l, root, To(c), Get(l.next, c));
  }

  /** The lowest start allowed in a gap that begins at `from`. */
  function Lowest(from: int, k: Constraint): (s: int)
    requires k.align > 0
    ensures s >= from && s >= k.min
  {
    AlignUp(if from < k.min then k.min else from, k.align)
  }

  predicate FitsGap(from: int, to: int, size: int, k: Constraint)
    requires k.align > 0
  {
    to >= from && Lowest(from, k) + size - 1 <= if to > k.max then k.max else to
  }

  /**
    First fit: the lowest aligned range of `size` addresses inside `root` and `k.min..k.max` that meets no
    child of `root` other than `old_`.  It fails only if there is no such range.
   */
  method FindResource(ghost nodes: set<Resource>, root: Resource, old_: Resource?, size: int, k: Constraint)
    returns (found: bool, start: int)
    requires Valid(nodes) && root in nodes && size > 0 && k.align > 0
    ensures found ==> Slot(Abs(nodes), root, old_, size, k, start)
                      && forall s | Slot(Abs(nodes), root, old_, size, k, s) :: start <= s
    ensures !found ==> forall s :: !Slot(Abs(nodes), root, old_, size, k, s)
  {
    hide SiblingsDisjoint, Ranked, Slot, Searched;
    ghost var f, l := Abs(nodes), LinksOf(nodes);
    ghost var prev: Ptr<Resource> := Null;
    var this_, from := root.child, root.start;
    SearchStarts(f, l, root, old_, size, k);
    if this_ != null && this_.start == root.start {
      from := if this_ == old_ then this_.start else this_.end + 1;
      SearchSkips(f, l, root, old_, size, k, this_, from);
      prev, this_ := To(this_), this_.sibling;
    }
    while true
      invariant SearchAt(f, l, root, old_, size, k, prev, PtrTo(this_), from)
      decreases if this_ == null then -1 else root.end - this_.start
    {
      var to := if this_ == null then root.end else if this_ == old_ then this_.end else this_.start - 1;
      assert to == GapTop(f, root, old_, PtrTo(this_));
      if FitsGap(from, to, size, k) {
        start := Lowest(from, k);
        SearchFinds(f, root, old_, size, k, prev, PtrTo(this_), from, to, start);
        return true, start;
      }
      if this_ == null {
        SearchFails(f, root, old_, size, k, prev, Null, from, to);
        return false, 0;
      }
      SearchMoves(f, l, root, old_, size, k, prev, this_, from, to);
      if this_.end == root.end {
        return false, 0;
      }
      if this_ != old_ {
        from := this_.end + 1;
      }
      prev, this_ := To(this_), this_.sibling;
    }
  }

  lemma SkipFirst(f: Forest<Resource>, root: Resource, old_: Resource?, size: int, k: Constraint, c: Resource, from: int)
    requires WellFormed(f) && root in f.span && k.align > 0 && size > 0
    requires Adjacent(f, root, Null, To(c)) && f.span[c].lo == f.span[root].lo
    requires from == if c == old_ then f.span[c].lo else f.span[c].hi + 1
    ensures Searched(f, root, old_, size, k, To(c), from)
  {
    forall d: Resource | ChildOf(f, d, root) && f.span[d].lo <= f.span[c].lo ensures d == c {
      assert d != c ==> !f.span[c].Overlaps(f.span[d]);
    }
    if c != old_ {
      forall s | Slot(f, root, old_, size, k, s) ensures from <= s {
        assert !f.span[c].Overlaps(Span(s, s + size - 1));
      }
    }
  }

  lemma SearchAdvances(f: Forest<Resource>, root: Resource, old_: Resource?, size: int, k: Constraint,
                       prev: Ptr<Resource>, c: Resource, from: int)
    requires WellFormed(f) && root in f.span && k.align > 0
    requires Adjacent(f, root, prev, To(c)) && f.span[root].lo <= from
    requires if c == old_ then Searched(f, root, old_, size, k, prev, from) else from == f.span[c].hi + 1
    requires forall s | Slot(f, root, old_, size, k, s) :: from <= s
    ensures Searched(f, root, old_, size, k, To(c), from)
  {
    forall d: Resource | ChildOf(f, d, root) && d != old_ && f.span[d].lo <= f.span[c].lo ensures f.span[d].hi < from {
      assert d != c ==> !f.span[c].Overlaps(f.span[d]);
    }
  }

  // -------------------------------------------------------------- resizing

  /** `s` covers the children of `x`, and leaves `x` between the same siblings and inside its parent. */
  ghost predicate Adjustable<Id>(f: Forest<Id>, x: Id, s: Span)
    requires Closed(f) && x in f.span
  {
    && (x in f.up ==>
          && f.span[f.up[x]].Contains(s)
          && (forall d | ChildOf(f, d, f.up[x]) && f.span[d].lo < f.span[x].lo :: f.span[d].hi < s.lo)
          && (forall d | ChildOf(f, d, f.up[x]) && f.span[x].lo < f.span[d].lo :: s.hi < f.span[d].lo))
    && CoversChildren(f, x, s)
  }

  ghost predicate CoversChildren<Id>(f: Forest<Id>, p: Id, s: Span)
    requires Closed(f)
  {
    forall c | ChildOf(f, c, p) :: s.Contains(f.span[c])
  }

  /** A range that is not empty is accepted exactly if the tree stays well formed and the siblings stay on their sides. */
  lemma AdjustableExactly<Id>(f: Forest<Id>, x: Id, s: Span)
    requires WellFormed(f) && x in f.span && s.Proper()
    ensures Adjustable(f, x, s) <==> WellFormed(Respan(f, x, s)) && SameSide(f, x, s)
  {
    RespanKeepsWellFormed(f, x, s);
    WellFormedDistinctStarts(f);
    forall d | x in f.up && ChildOf(f, d, f.up[x]) && d != x
      ensures f.span[d].Proper() && f.span[d].lo != f.span[x].lo && !f.span[d].Overlaps(f.span[x])
    {
      assert StartApart(f, d, x);
    }
  }

  /** The siblings before `x` begin before `s`, and those behind it begin behind. */
  ghost predicate SameSide<Id>(f: Forest<Id>, x: Id, s: Span)
    requires Closed(f) && x in f.span
  {
    x in f.up ==> forall d | ChildOf(f, d, f.up[x]) && d != x :: f.span[d].lo < f.span[x].lo <==> f.span[d].lo < s.lo
  }

  /** Adjusting keeps the tree valid exactly if the new range is not empty, or nobody could notice. */
  lemma AdjustedIsValid<Id>(f: Forest<Id>, l: Links<Id>, x: Id, s: Span)
    requires WellFormed(f) && Threaded(f, l) && x in f.span && Adjustable(f, x, s)
    ensures WellFormed(Respan(f, x, s)) <==> s.Proper() || x !in f.up
    ensures s.Proper() || x !in f.up ==> Threaded(Respan(f, x, s), l)
  {
    WellFormedDistinctStarts(f);
    if s.Proper() {
      forall d | x in f.up && ChildOf(f, d, f.up[x]) && d != x ensures !f.span[d].Overlaps(s) {
        assert StartApart(f, d, x);
      }
      RespanWithRoom(f, x, s);
      assert SamePlace(f, x, s) by {
        forall d | x in f.up && ChildOf(f, d, f.up[x]) && d != x
          ensures f.span[d].lo != s.lo && (f.span[d].lo < f.span[x].lo <==> f.span[d].lo < s.lo)
        {
          assert StartApart(f, d, x);
        }
      }
      RespanKeepsThreaded(f, l, x, s);
    } else if x !in f.up {
      var rank :| Ranked(f, rank);
      assert Ranked(Respan(f, x, s), rank);
      RespanKeepsThreaded(f, l, x, s);
    } else {
      assert x in Respan(f, x, s).up;
    }
  }

  /** The smallest tree to resize in: a root and one child at its upper end. */
  lemma OneChild() returns (f: Forest<nat>, l: Links<nat>)
    ensures WellFormed(f) && Threaded(f, l)
    ensures f.span == map[0 := Span(0, 9), 1 := Span(5, 9)] && f.up == map[1 := 0]
  {
    f := Forest(map[0 := Span(0, 9), 1 := Span(5, 9)], map[1 := 0], {});
    l := Links(map[], map[0 := 1]);
    assert Ranked(f, map[0 := 1, 1 := 0]);
    assert FirstChild(f, l.first, 0) && FirstChild(f, l.first, 1) && NextSibling(f, l.next, 1);
  }

  /** A size of 0 is let through and leaves a child with an empty range: here the last address of the parent is cut off. */
  lemma AdjustToNothing() returns (f: Forest<nat>, l: Links<nat>)
    ensures WellFormed(f) && Threaded(f, l) && ChildOf(f, 1, 0)
    ensures Adjustable(f, 1, Span(9, 9 + 0 - 1)) && !WellFormed(Respan(f, 1, Span(9, 9 + 0 - 1)))
  {
    hide WellFormed, Threaded;
    f, l := OneChild();
    assert Closed(f);
    AdjustedIsValid(f, l, 1, Span(9, 8));
  }

  /** Do all children of `p` lie inside the range? */
  method ChildrenWithin(ghost nodes: set<Resource>, p: Resource, start: int, end: int) returns (ok: bool)
    requires Valid(nodes) && p in nodes
    ensures ok <==> CoversChildren(Abs(nodes), p, Span(start, end))
  {
    ghost var f, l := Abs(nodes), LinksOf(nodes);
    WellFormedDistinctStarts(f);
    ghost var prev: Ptr<Resource> := Null;
    var tmp := p.child;
    GapIsAdjacent(f, l, p, prev, PtrTo(tmp));
    while tmp != null
      invariant Gap(f, l, p, prev, PtrTo(tmp)) && Adjacent(f, p, prev, PtrTo(tmp))
      invariant prev.To? ==> forall c | ChildOf(f, c, p) && f.span[c].lo <= f.span[prev.id].lo :: Span(start, end).Contains(f.span[c])
      decreases if tmp == null then -1 else f.span[p].hi - f.span[tmp].lo
    {
      if tmp.start < start || tmp.end > end {
        assert ChildOf(f, tmp, p) && !Span(start, end).Contains(f.span[tmp]);
        return false;
      }
      assert forall c | ChildOf(f, c, p) :: StartApart(f, c, tmp);
      prev, tmp := To(tmp), tmp.sibling;
      GapIsAdjacent(f, l, p, prev, PtrTo(tmp));
    }
    return true;
  }

  /** Does the range lie inside the parent of `res` and between the siblings next to it? */
  method BetweenSiblings(ghost nodes: set<Resource>, res: Resource, start: int, end: int) returns (ok: bool)
    requires Valid(nodes) && res in nodes && res.parent != null
    ensures res in Abs(nodes).up
    ensures ok <==> var f := Abs(nodes);
                    && f.span[f.up[res]].Contains(Span(start, end))
                    && (forall d | ChildOf(f, d, f.up[res]) && f.span[d].lo < f.span[res].lo :: f.span[d].hi < start)
                    && (forall d | ChildOf(f, d, f.up[res]) && f.span[res].lo < f.span[d].lo :: end < f.span[d].lo)
  {
    ghost var f, l := Abs(nodes), LinksOf(nodes);
    assert res in f.up && NextSibling(f, l.next, res);
    if start < res.parent.start || end > res.parent.end {
      return false;
    }
    if res.sibling != null && res.sibling.start <= end {
      return false;
    }
    var prev, found := FindInList(nodes, res.parent, res);
    GapIsAdjacent(f, l, res.parent, PtrTo(prev), To(res));
    if prev != null && start <= prev.end {
      return false;
    }
    forall d | ChildOf(f, d, f.up[res]) && f.span[d].lo < f.span[res].lo ensures f.span[d].hi < start {
      assert prev == d || !f.span[d].Overlaps(f.span[prev]);
    }
    return true;
  }

  method CanAdjust(ghost nodes: set<Resource>, res: Resource, start: int, end: int) returns (ok: bool)
    requires Valid(nodes) && res in nodes
    ensures ok <==> Adjustable(Abs(nodes), res, Span(start, end))
  {
    if res.parent != null {
      ok := BetweenSiblings(nodes, res, start, end);
      if !ok {
        return;
      }
    }
    ok := ChildrenWithin(nodes, res, start, end);
  }

  /** Gives `res` the range of `size` addresses from `start` on, if it keeps its place and its children. */
  method AdjustResource(ghost nodes: set<Resource>, res: Resource, start: int, size: int) returns (ok: bool)
    requires Valid(nodes) && res in nodes
    modifies res`start, res`end
    ensures ok <==> old(Adjustable(Abs(nodes), res, Span(start, start + size - 1)))
    ensures ok ==> Abs(nodes) == Respan(old(Abs(nodes)), res, Span(start, start + size - 1))
    ensures ok ==> (Valid(nodes) <==> size > 0 || res.parent == null)
    ensures ok && size > 0 ==> Moves(old(Abs(nodes)), Resize(res, Span(start, start + size - 1)), Abs(nodes))
    ensures !ok ==> unchanged(res)
  {
    hide Threaded, Adjustable, Nested, SiblingsDisjoint, Ranked, Moves;
    ok := CanAdjust(nodes, res, start, start + size - 1);
    if ok {
      ghost var g := Respan(Abs(nodes), res, Span(start, start + size - 1));
      AdjustedIsValid(Abs(nodes), LinksOf(nodes), res, Span(start, start + size - 1));
      assert res.parent == null <==> res !in g.up;
      SetRange(nodes, res, start, start + size - 1);
      assert Valid(nodes) <==> WellFormed(g) && Threaded(g, LinksOf(nodes));
      if size > 0 {
        ResizeIsStep(old(Abs(nodes)), res, Span(start, start + size - 1));
      }
    }
  }

  // ------------------------------------------------- allocation, reallocation

  ghost predicate LowestSlot(f: Forest<Resource>, root: Resource, old_: Resource?, size: int, k: Constraint, s: int)
    requires Closed(f) && root in f.span && k.align > 0
  {
    Slot(f, root, old_, size, k, s) && forall t | Slot(f, root, old_, size, k, t) :: s <= t
  }

  /** Complete containment, which a resource without an address never has. */
  predicate ResourceContains(r1: Span, flags1: Flags, r2: Span, flags2: Flags) {
    flags1.kind == flags2.kind && !flags1.unset && !flags2.unset && r1.Contains(r2)
  }

  lemma ResizedIsValid(f: Forest<Resource>, l: Links<Resource>, root: Resource, x: Resource, size: int, k: Constraint, s: int)
    requires WellFormed(f) && Threaded(f, l) && root in f.span && k.align > 0 && size > 0
    requires ChildOf(f, x, root) && Slot(f, root, x, size, k, s)
    requires f.span[x].Contains(Span(s, s + size - 1)) || Span(s, s + size - 1).Contains(f.span[x])
    requires CoversChildren(f, x, Span(s, s + size - 1))
    ensures WellFormed(Respan(f, x, Span(s, s + size - 1))) && Threaded(Respan(f, x, Span(s, s + size - 1)), l)
  {
    RespanWithRoom(f, x, Span(s, s + size - 1));
    WellFormedDistinctStarts(f);
    forall d | ChildOf(f, d, root) && d != x
      ensures f.span[d].lo != s && (f.span[d].lo < f.span[x].lo <==> f.span[d].lo < s)
    {
      assert !f.span[d].Overlaps(f.span[x]);
    }
    RespanKeepsThreaded(f, l, x, Span(s, s + size - 1));
  }

  lemma GrowthCoversChildren(f: Forest<Resource>, x: Resource, s: Span)
    requires WellFormed(f) && x in f.span && (s.Contains(f.span[x]) || forall c | c in f.up :: f.up[c] != x)
    ensures CoversChildren(f, x, s)
  {
  }

  /** Moving `x` out of the tree, to its new range, and back in is the same as changing its range. */
  lemma MoveIsRespan(f: Forest<Resource>, root: Resource, x: Resource, s: Span)
    requires ChildOf(f, x, root)
    ensures Attach(Respan(Detach(f, x), x, s), root, x) == Respan(f, x, s)
  {
    assert Attach(Respan(Detach(f, x), x, s), root, x).up == f.up;
  }

  /** Takes `x` out, gives it a free range and puts it back; the conflict the code guards against cannot arise. */
  method MoveResource(ghost nodes: set<Resource>, root: Resource, x: Resource, ghost size: int, ghost k: Constraint,
                      start: int, end: int)
    requires Valid(nodes) && root in nodes && x in nodes && x.parent == root && x.child == null && root != x
    requires k.align > 0 && size > 0 && end == start + size - 1
    requires Slot(Abs(nodes), root, x, size, k, start)
    modifies nodes`parent, nodes`sibling, nodes`child, x`start, x`end
    ensures Valid(nodes) && Abs(nodes) == Respan(old(Abs(nodes)), x, Span(start, end))
  {
    ghost var f := Abs(nodes);
    TakeOut(nodes, x, start, end);
    FreeSlot(f, root, x, size, k, start);
    RequestFree(nodes, root, x);
    MoveIsRespan(f, root, x, Span(start, end));
  }

  method TakeOut(ghost nodes: set<Resource>, x: Resource, start: int, end: int)
    requires Valid(nodes) && x in nodes && x.parent != null && x.child == null
    modifies nodes`parent, nodes`sibling, nodes`child, x`start, x`end
    ensures Valid(nodes) && Abs(nodes) == Respan(Detach(old(Abs(nodes)), x), x, Span(start, end))
    ensures x.parent == null && x.child == null && x.start == start && x.end == end
  {
    ValidChildless(nodes, x);
    var ok := ReleaseResource(nodes, x);
    LooseRespan(Abs(nodes), LinksOf(nodes), x, Span(start, end));
    SetRange(nodes, x, start, end);
    ValidChildPointer(nodes, x);
  }

  lemma ValidChildless(nodes: set<Resource>, x: Resource)
    requires Valid(nodes) && x in nodes && x.child == null
    ensures forall c | c in Abs(nodes).up :: Abs(nodes).up[c] != x
  {
    assert FirstChild(Abs(nodes), LinksOf(nodes).first, x);
  }

  lemma ValidChildPointer(nodes: set<Resource>, x: Resource)
    requires Valid(nodes) && x in nodes && Loose(Abs(nodes), x)
    ensures x.parent == null && x.child == null
  {
    assert FirstChild(Abs(nodes), LinksOf(nodes).first, x);
    assert x !in Abs(nodes).up && x !in LinksOf(nodes).first;
  }

  /** With `x` out of the way its slot is free. */
  lemma FreeSlot(f: Forest<Resource>, root: Resource, x: Resource, size: int, k: Constraint, s: int)
    requires Closed(f) && ChildOf(f, x, root) && root != x && k.align > 0 && size > 0 && Slot(f, root, x, size, k, s)
    ensures CanHold(Respan(Detach(f, x), x, Span(s, s + size - 1)), root, Span(s, s + size - 1))
  {
  }

  /** Can `old_` be given the range `s`: it covers the present range, or there are no children to lose? */
  ghost predicate MayMove(old_: Resource, s: Span): (r: bool)
    reads old_
    ensures r <==> old_.child == null || (!old_.flags.unset && s.lo <= old_.start && old_.end <= s.hi)
  {
    old_.child == null || ResourceContains(s, old_.flags, old_.Range(), old_.flags)
  }

  /**
    Gives `old_`, a child of `root`, the lowest range that satisfies the constraints, in place or by moving it.
    Only the range of `old_` changes.
   */
  method ReallocateResource(ghost nodes: set<Resource>, root: Resource, old_: Resource, size: int, k: Constraint)
    returns (ok: bool)
    requires Valid(nodes) && root in nodes && old_ in nodes && old_.parent == root
    requires size > 0 && k.align > 0
    modifies nodes`parent, nodes`sibling, nodes`child, old_`start, old_`end
    ensures Valid(nodes)
    ensures ok ==> Abs(nodes) == Respan(old(Abs(nodes)), old_, Span(old_.start, old_.start + size - 1))
                   && LowestSlot(old(Abs(nodes)), root, old_, size, k, old_.start)
                   && Moves(old(Abs(nodes)), Resize(old_, Span(old_.start, old_.start + size - 1)), Abs(nodes))
    ensures ok <==> exists s :: LowestSlot(old(Abs(nodes)), root, old_, size, k, s)
                                && old(MayMove(old_, Span(s, s + size - 1)))
    ensures !ok ==> unchanged(nodes)
  {
    hide Threaded, Nested, SiblingsDisjoint, Ranked, Slot, Moves;
    ghost var f, l := Abs(nodes), LinksOf(nodes);
    var found, start := FindResource(nodes, root, old_, size, k);
    if !found {
      return false;
    }
    assert LowestSlot(f, root, old_, size, k, start);
    var new_ := Span(start, start + size - 1);
    if ResourceContains(new_, old_.flags, old_.Range(), old_.flags) {
      GrowthCoversChildren(f, old_, new_);
      ResizedIsValid(f, l, root, old_, size, k, start);
      SetRange(nodes, old_, new_.lo, new_.hi);
      ResizeIsStep(f, old_, new_);
      return true;
    }
    if old_.child != null {
      return false;
    }
    ValidChildless(nodes, old_);
    if ResourceContains(old_.Range(), old_.flags, new_, old_.flags) {
      GrowthCoversChildren(f, old_, new_);
      ResizedIsValid(f, l, root, old_, size, k, start);
      SetRange(nodes, old_, new_.lo, new_.hi);
    } else {
      NotOwnParent(f, old_);
      MoveResource(nodes, root, old_, size, k, new_.lo, new_.hi);
    }
    ResizeIsStep(f, old_, new_);
    return true;
  }

  lemma NotOwnParent(f: Forest<Resource>, x: Resource)
    requires WellFormed(f) && x in f.up
    ensures f.up[x] != x
  {
    var rank :| Ranked(f, rank);
    assert rank[x] < rank[f.up[x]];
  }

  /** Allocates the lowest range that satisfies the constraints among the children of `root`. */
  method AllocateResource(ghost nodes: set<Resource>, root: Resource, new_: Resource, size: int, k: Constraint)
    returns (ok: bool)
    requires Valid(nodes) && root in nodes && new_ in nodes && root != new_
    requires if new_.parent == null then new_.child == null else new_.parent == root
    requires size > 0 && k.align > 0
    modifies nodes`parent, nodes`sibling, nodes`child, new_`start, new_`end
    ensures Valid(nodes)
    ensures ok ==> new_.parent == root && new_.end == new_.start + size - 1
    ensures ok ==> LowestSlot(old(Abs(nodes)), root, new_, size, k, new_.start)
    ensures ok ==> Abs(nodes) == Attach(Respan(old(Abs(nodes)), new_, new_.Range()), root, new_)
    ensures ok && old(new_.parent != null) ==> Moves(old(Abs(nodes)), Resize(new_, new_.Range()), Abs(nodes))
    ensures ok && old(new_.parent == null) ==> Allocated(old(Abs(nodes)), root, new_, new_.Range(), Abs(nodes))
    ensures ok <==> exists s :: LowestSlot(old(Abs(nodes)), root, new_, size, k, s)
                                && old(new_.parent == null || MayMove(new_, Span(s, s + size - 1)))
    ensures !ok ==> unchanged(nodes)
  {
    hide Allocated, Moves;
    if new_.parent != null {
      ghost var f := Abs(nodes);
      ok := ReallocateResource(nodes, root, new_, size, k);
      assert f.up[new_ := root] == f.up;
      assert ok ==> Abs(nodes).span[new_] == Span(new_.start, new_.start + size - 1) && new_ in Abs(nodes).up;
    } else {
      ok := AllocateFresh(nodes, root, new_, size, k);
    }
  }

  /** `x`, outside the tree, is given the range `s` and then put below `root`. */
  ghost predicate Allocated(f: Forest<Resource>, root: Resource, x: Resource, s: Span, g: Forest<Resource>) {
    Moves(f, Resize(x, s), Respan(f, x, s)) && Moves(Respan(f, x, s), Request(root, x), g)
  }

  method AllocateFresh(ghost nodes: set<Resource>, root: Resource, new_: Resource, size: int, k: Constraint)
    returns (ok: bool)
    requires Valid(nodes) && root in nodes && new_ in nodes && root != new_
    requires new_.parent == null && new_.child == null && size > 0 && k.align > 0
    modifies nodes`parent, nodes`sibling, nodes`child, new_`start, new_`end
    ensures Valid(nodes)
    ensures ok ==> new_.parent == root && new_.end == new_.start + size - 1
    ensures ok ==> LowestSlot(old(Abs(nodes)), root, new_, size, k, new_.start)
    ensures ok ==> Abs(nodes) == Attach(Respan(old(Abs(nodes)), new_, new_.Range()), root, new_)
    ensures ok ==> Allocated(old(Abs(nodes)), root, new_, new_.Range(), Abs(nodes))
    ensures ok <==> exists s :: LowestSlot(old(Abs(nodes)), root, new_, size, k, s)
    ensures !ok ==> unchanged(nodes)
  {
    hide Threaded, LowestSlot, CanHold, Nested, SiblingsDisjoint, Ranked, Moves;
    var found, start := FindFresh(nodes, root, new_, size, k);
    if !found {
      return false;
    }
    ghost var f := Abs(nodes);
    ResizeLoose(nodes, root, new_, start, start + size - 1);
    RequestFree(nodes, root, new_);
    assert Allocated(f, root, new_, new_.Range(), Abs(nodes));
    assert LowestSlot(f, root, new_, size, k, new_.start);
    return true;
  }

  method FindFresh(ghost nodes: set<Resource>, root: Resource, ghost x: Resource, size: int, k: Constraint)
    returns (found: bool, start: int)
    requires Valid(nodes) && root in nodes && x in nodes && x.parent == null && size > 0 && k.align > 0
    ensures found ==> LowestSlot(Abs(nodes), root, x, size, k, start)
                      && CanHold(Abs(nodes), root, Span(start, start + size - 1))
    ensures !found ==> forall s :: !LowestSlot(Abs(nodes), root, x, size, k, s)
  {
    found, start := FindResource(nodes, root, null, size, k);
    assert x !in Abs(nodes).up;
    SlotsOfLoose(Abs(nodes), root, x, size, k);
    if found {
      HoldsSlot(Abs(nodes), root, x, size, k, start);
    }
  }

  /** Requesting a range that is known to be free never meets a conflict. */
  method RequestFree(ghost nodes: set<Resource>, root: Resource, x: Resource)
    requires Valid(nodes) && root in nodes && x in nodes && root != x && x.parent == null && x.child == null
    requires CanHold(Abs(nodes), root, x.Range())
    modifies nodes`parent, nodes`sibling, nodes`child
    ensures Valid(nodes) && Abs(nodes) == Attach(old(Abs(nodes)), root, x) && x.parent == root
    ensures Moves(old(Abs(nodes)), Request(root, x), Abs(nodes))
  {
    var conflict := RequestResource(nodes, root, x);
    assert conflict == null;
    assert x in Abs(nodes).up && Abs(nodes).up[x] == root;
  }

  lemma HoldsSlot(f: Forest<Resource>, root: Resource, x: Resource, size: int, k: Constraint, s: int)
    requires Closed(f) && root in f.span && k.align > 0 && size > 0 && x !in f.up && Slot(f, root, x, size, k, s)
    requires forall t | Slot(f, root, x, size, k, t) :: s <= t
    ensures CanHold(f, root, Span(s, s + size - 1)) && LowestSlot(f, root, x, size, k, s)
  {
  }

  lemma SlotsOfLoose(f: Forest<Resource>, root: Resource, x: Resource, size: int, k: Constraint)
    requires Closed(f) && root in f.span && k.align > 0 && x !in f.up
    ensures forall s :: Slot(f, root, null, size, k, s) <==> Slot(f, root, x, size, k, s)
  {
  }

  /** Gives a resource outside the tree a range that is free below `root`. */
  method ResizeLoose(ghost nodes: set<Resource>, ghost root: Resource, x: Resource, start: int, end: int)
    requires Valid(nodes) && root in nodes && x in nodes && root != x && x.parent == null && x.child == null
    requires CanHold(Abs(nodes), root, Span(start, end))
    modifies x`start, x`end
    ensures Valid(nodes) && x.Range() == Span(start, end) && Abs(nodes) == Respan(old(Abs(nodes)), x, Span(start, end))
    ensures CanHold(Abs(nodes), root, Span(start, end)) && root.Range() == old(root.Range())
    ensures Moves(old(Abs(nodes)), Resize(x, Span(start, end)), Abs(nodes))
  {
    ValidLoose(nodes, x);
    LooseRespan(Abs(nodes), LinksOf(nodes), x, Span(start, end));
    SetRange(nodes, x, start, end);
  }
}
