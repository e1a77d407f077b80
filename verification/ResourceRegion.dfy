/**
  Requesting and releasing BUSY regions.  Unlike a plain request, a region request looks for its place
  inside the resources it meets, as long as they are not BUSY themselves.
 */
module ResourceRegion {
  import opened ResourceForest
  import opened ResourceLinks
  import opened ResourceTree
  import opened ResourceReserve
  import opened ResourceBusy

  /**
    Grants the range of `n` addresses from `start` on below `parent`, or fails.  It is granted exactly if
    everything below `parent` that meets the range encloses it and is not BUSY.
   */
  method RequestRegion(ghost nodes: set<Resource>, parent: Resource, start: int, n: nat)
    returns (res: Resource?, ghost home: Resource)
    requires Valid(nodes) && parent in nodes
    modifies nodes`parent, nodes`sibling, nodes`child
    ensures res != null <==> Grantable(old(Abs(nodes)), parent, Span(start, start + n - 1))
    ensures res == null ==> unchanged(nodes)
    ensures res != null ==>
              && fresh(res) && res.Range() == Span(start, start + n - 1) && res.flags.busy
              && GrantedAt(old(Abs(nodes)), parent, res.Range(), home)
              && Valid(nodes + {res}) && Abs(nodes + {res}) == WithNew(old(Abs(nodes)), home, res, res.Range())
              && Moves(old(Abs(nodes)), Grant(parent, home, res, res.Range()), Abs(nodes + {res}))
  {
    hide Threaded, WellFormed, Grantable, GrantedAt;
    var new_ := NewBusy(start, start + n - 1);
    var granted: bool;
    granted, home := Place(nodes, parent, new_);
    res := if granted then new_ else null;
  }

  method Place(ghost nodes: set<Resource>, parent: Resource, new_: Resource) returns (granted: bool, ghost home: Resource)
    requires Valid(nodes) && parent in nodes && Pending(nodes, new_, new_.Range())
    modifies nodes`parent, nodes`sibling, nodes`child, new_`parent, new_`sibling, new_`child
    ensures granted <==> Grantable(old(Abs(nodes)), parent, new_.Range())
    ensures !granted ==> unchanged(nodes)
    ensures granted ==> GrantedAt(old(Abs(nodes)), parent, new_.Range(), home) && Valid(nodes + {new_})
                        && Abs(nodes + {new_}) == WithNew(old(Abs(nodes)), home, new_, new_.Range())
  {
    hide Threaded, Grantable, GrantedAt, Ranked, SiblingsDisjoint, Nested;
    ghost var f, s := Abs(nodes), new_.Range();
    ghost var rank :| Ranked(f, rank);
    var here := parent;
    while true
      invariant unchanged(nodes) && here in nodes && Pending(nodes, new_, s)
      invariant Grantable(f, parent, s) <==> Grantable(f, here, s)
      invariant forall q | q in f.span && GrantedAt(f, here, s, q) :: GrantedAt(f, parent, s, q)
      decreases RankOf(f, rank, here)
    {
      var conflict := RequestPending(nodes, here, new_);
      if conflict == null {
        OpenAtTop(f, here, s);
        return true, here;
      }
      if conflict == here {
        NotGrantable(f, here, s);
        return false, here;
      }
      OpenThrough(f, here, s, conflict);
      if conflict.flags.busy {
        return false, here;
      }
      Deeper(f, rank, here, s, conflict);
      here := conflict;
    }
  }

  ghost function RankOf(f: Forest<Resource>, rank: map<Resource, nat>, r: Resource): nat
    requires Ranked(f, rank) && r in f.span
  {
    rank[r]
  }

  lemma NotGrantable(f: Forest<Resource>, p: Resource, s: Span)
    requires p in f.span && !(s.Proper() && f.span[p].Contains(s))
    ensures !Grantable(f, p, s)
  {
  }

  lemma Deeper(f: Forest<Resource>, rank: map<Resource, nat>, p: Resource, s: Span, c: Resource)
    requires WellFormed(f) && Ranked(f, rank) && s.Proper() && ChildOf(f, c, p) && c !in f.busy
    ensures c in f.span && RankOf(f, rank, c) < RankOf(f, rank, p)
    ensures forall q | q in f.span && GrantedAt(f, c, s, q) :: GrantedAt(f, p, s, q)
  {
    forall q | q in f.span && GrantedAt(f, c, s, q) ensures GrantedAt(f, p, s, q) {
      GrantedThrough(f, p, s, c, q);
    }
  }

  // ----------------------------------------------------------------- release

  /** `x` is the BUSY resource of the range `s` that is found below `p` without passing another BUSY one. */
  ghost predicate Releasable<Id>(f: Forest<Id>, p: Id, s: Span, x: Id) {
    && x in f.span && Below(f, x, p) && f.span[x] == s && x in f.busy
    && forall r | r in f.span && Below(f, r, p) && Below(f, x, r) :: r !in f.busy
  }

  /** What is releasable below `p` lies at or below a child of `p` that encloses it. */
  lemma ReleasableChild(f: Forest<Resource>, p: Resource, s: Span, x: Resource) returns (d: Resource)
    requires WellFormed(f) && Releasable(f, p, s, x)
    ensures s.Proper() && ChildOf(f, d, p) && AtOrBelow(f, x, d) && f.span[d].Contains(s)
  {
    BelowReaches(f, x, p);
    var n: nat :| Reaches(f, x, n, p) && n > 0;
    d := ChildOnPath(f, x, n, p);
    AtOrBelowSpan(f, x, d);
  }

  ghost predicate NoneEncloses(f: Forest<Resource>, p: Resource, s: Span)
    requires Closed(f)
  {
    forall d | ChildOf(f, d, p) :: !f.span[d].Contains(s)
  }

  lemma NothingReleasable(f: Forest<Resource>, p: Resource, s: Span)
    requires WellFormed(f) && NoneEncloses(f, p, s)
    ensures forall x | x in f.span :: !Releasable(f, p, s, x)
  {
    forall x | x in f.span ensures !Releasable(f, p, s, x) {
      if Releasable(f, p, s, x) {
        var d := ReleasableChild(f, p, s, x);
      }
    }
  }

  /** The child `c` of `p` encloses `s`: all depends on `c`, or on what lies below it. */
  lemma ReleasableThrough(f: Forest<Resource>, p: Resource, s: Span, c: Resource, x: Resource)
    requires WellFormed(f) && ChildOf(f, c, p) && f.span[c].Contains(s)
    ensures c in f.busy ==> (Releasable(f, p, s, x) <==> x == c && f.span[c] == s)
    ensures c !in f.busy ==> (Releasable(f, p, s, x) <==> Releasable(f, c, s, x))
  {
    AtOrBelowSelf(f, p);
    AtOrBelowSelf(f, c);
    AtOrBelowStep(f, c, p);
    if Releasable(f, p, s, x) {
      var d := ReleasableChild(f, p, s, x);
      assert d == c || !f.span[c].Overlaps(f.span[d]);
      AtOrBelowStep(f, x, c);
      forall r | r in f.span && Below(f, r, c) && Below(f, x, r) ensures r !in f.busy {
        BelowTrans(f, r, c, p);
      }
    }
    if c !in f.busy && Releasable(f, c, s, x) {
      BelowTrans(f, x, c, p);
      forall r | r in f.span && Below(f, r, p) && Below(f, x, r) ensures r !in f.busy {
        BetweenThrough(f, p, c, x, r);
      }
    }
    if c in f.busy && x == c && f.span[c] == s {
      forall r | r in f.span ensures !(Below(f, r, p) && Below(f, c, r)) {
        NothingBetween(f, p, c, r);
      }
    }
  }

  lemma NothingBetween(f: Forest<Resource>, p: Resource, c: Resource, r: Resource)
    requires WellFormed(f) && ChildOf(f, c, p)
    ensures !(Below(f, r, p) && Below(f, c, r))
  {
    if Below(f, r, p) && Below(f, c, r) {
      BelowTrans(f, r, p, r);
      NotBelowSelf(f, r);
    }
  }

  lemma BetweenThrough(f: Forest<Resource>, p: Resource, c: Resource, x: Resource, r: Resource)
    requires WellFormed(f) && ChildOf(f, c, p) && Below(f, x, c) && Below(f, r, p) && Below(f, x, r) && r in f.span
    ensures r == c || Below(f, r, c)
  {
    var n: nat :| Reaches(f, f.up[x], n, r);
    var m: nat :| Reaches(f, f.up[x], m, c);
    CommonPath(f, f.up[x], n, r, m, c);
    AtOrBelowStep(f, r, c);
    AtOrBelowStep(f, c, r);
    NothingBetween(f, p, c, r);
  }

  /** The first child of `here` that encloses the range. */
  method FindEnclosing(ghost nodes: set<Resource>, here: Resource, start: int, end: int) returns (prev: Resource?, res: Resource?)
    requires Valid(nodes) && here in nodes
    ensures prev != null ==> prev in nodes
    ensures res == null ==> NoneEncloses(Abs(nodes), here, Span(start, end))
    ensures res != null ==> res in nodes && ChildOf(Abs(nodes), res, here) && res.Range().Contains(Span(start, end))
                            && Gap(Abs(nodes), LinksOf(nodes), here, PtrTo(prev), PtrTo(res))
  {
    hide Nested, SiblingsDisjoint, Ranked;
    ghost var f, l := Abs(nodes), LinksOf(nodes);
    WellFormedDistinctStarts(f);
    prev, res := null, here.child;
    GapIsAdjacent(f, l, here, PtrTo(prev), PtrTo(res));
    while res != null && !(res.start <= start && res.end >= end)
      invariant prev != null ==> prev in nodes
      invariant Gap(f, l, here, PtrTo(prev), PtrTo(res)) && Adjacent(f, here, PtrTo(prev), PtrTo(res))
      invariant forall d | ChildOf(f, d, here) && prev != null && f.span[d].lo <= f.span[prev].lo ::
                  !f.span[d].Contains(Span(start, end))
      decreases if res == null then -1 else Ahead(f, here, res)
    {
      assert forall c | ChildOf(f, c, here) :: StartApart(f, c, res);
      AheadFalls(f, here, res);
      prev, res := res, res.sibling;
      GapIsAdjacent(f, l, here, PtrTo(prev), PtrTo(res));
    }
  }

  /** How far the start of the child `c` is from the end of its parent. */
  ghost function Ahead(f: Forest<Resource>, p: Resource, c: Resource): int
    requires Closed(f) && ChildOf(f, c, p)
  {
    f.span[p].hi - f.span[c].lo
  }

  lemma AheadFalls(f: Forest<Resource>, p: Resource, c: Resource)
    requires WellFormed(f) && ChildOf(f, c, p)
    ensures forall d | ChildOf(f, d, p) :: Ahead(f, p, d) >= 0
  {
  }

  /**
    Frees the BUSY region of exactly this range, found below `parent` through resources that are not BUSY.
    What hangs below the region is not looked at: the tree stays valid exactly if nothing does.
   */
  method ReleaseRegion(ghost nodes: set<Resource>, parent: Resource, start: int, n: nat) returns (res: Resource?)
    requires Valid(nodes) && parent in nodes
    modifies nodes`sibling, nodes`child
    ensures res == null ==> unchanged(nodes)
                            && forall x | x in nodes :: !Releasable(Abs(nodes), parent, Span(start, start + n - 1), x)
    ensures res != null ==> res in nodes && Releasable(old(Abs(nodes)), parent, Span(start, start + n - 1), res)
                            && Abs(nodes - {res}) == Drop(old(Abs(nodes)), res)
                            && (Valid(nodes - {res}) <==> old(res.child) == null)
                            && (old(res.child) == null ==> Moves(old(Abs(nodes)), Free(res), Abs(nodes - {res})))
  {
    hide Nested, SiblingsDisjoint, Threaded, Ranked, Releasable, Moves;
    ghost var f, s := Abs(nodes), Span(start, start + n - 1);
    ghost var rank :| Ranked(f, rank);
    var here := parent;
    while true
      invariant unchanged(nodes) && here in nodes && Abs(nodes) == f
      invariant forall x | x in nodes :: Releasable(f, parent, s, x) <==> Releasable(f, here, s, x)
      decreases RankOf(f, rank, here)
    {
      var prev;
      prev, res := FindEnclosing(nodes, here, start, start + n - 1);
      if res == null {
        NothingReleasable(f, here, s);
        return null;
      }
      forall x | x in nodes {
        ReleasableThrough(f, here, s, res, x);
      }
      if res.flags.busy {
        if res.start != start || res.end != start + n - 1 {
          return null;
        }
        FreeMoves(f, LinksOf(nodes), parent, s, res);
        CutLoose(nodes, here, prev, res);
        return res;
      }
      LowerRank(f, rank, here, res);
      here := res;
    }
  }

  lemma FreeMoves(f: Forest<Resource>, l: Links<Resource>, p: Resource, s: Span, x: Resource)
    requires WellFormed(f) && Threaded(f, l) && Releasable(f, p, s, x)
    ensures x !in l.first ==> Moves(f, Free(x), Drop(f, x))
  {
    assert FirstChild(f, l.first, x);
  }

  lemma LowerRank(f: Forest<Resource>, rank: map<Resource, nat>, p: Resource, c: Resource)
    requires Closed(f) && Ranked(f, rank) && ChildOf(f, c, p)
    ensures RankOf(f, rank, c) < RankOf(f, rank, p)
  {
  }

  /** Makes the link that leads to `x` lead past it. */
  method CutLoose(ghost nodes: set<Resource>, p: Resource, prev: Resource?, x: Resource)
    requires Valid(nodes) && p in nodes && x in nodes && (prev != null ==> prev in nodes) && ChildOf(Abs(nodes), x, p)
    requires Gap(Abs(nodes), LinksOf(nodes), p, PtrTo(prev), To(x))
    modifies nodes`sibling, nodes`child
    ensures Abs(nodes - {x}) == Drop(old(Abs(nodes)), x)
    ensures Valid(nodes - {x}) <==> old(x.child) == null
  {
    hide Nested, SiblingsDisjoint, Threaded, Ranked;
    ghost var f, l := Abs(nodes), LinksOf(nodes);
    CutLooseIsValid(f, l, p, PtrTo(prev), x);
    NotItself(f, l, p, PtrTo(prev), x);
    if prev == null {
      SetChild(nodes, p, x.sibling);
    } else {
      SetSibling(nodes, prev, x.sibling);
    }
    WithoutOne(nodes, x);
  }

  lemma WithoutOne(nodes: set<Resource>, x: Resource)
    ensures Abs(nodes - {x}) == Drop(Abs(nodes), x)
    ensures LinksOf(nodes - {x}) == Links(LinksOf(nodes).next - {x}, LinksOf(nodes).first - {x})
  {
    var f, g := Drop(Abs(nodes), x), Abs(nodes - {x});
    assert g.span == f.span && g.up == f.up && g.busy == f.busy;
  }

  lemma NotItself(f: Forest<Resource>, l: Links<Resource>, p: Resource, prev: Ptr<Resource>, x: Resource)
    requires WellFormed(f) && Threaded(f, l) && ChildOf(f, x, p) && Gap(f, l, p, prev, To(x))
    ensures p != x && prev != To(x)
  {
    var rank :| Ranked(f, rank);
    assert rank[x] < rank[p];
    assert NextSibling(f, l.next, x);
  }

  lemma CutLooseIsValid(f: Forest<Resource>, l: Links<Resource>, p: Resource, prev: Ptr<Resource>, x: Resource)
    requires WellFormed(f) && Threaded(f, l) && ChildOf(f, x, p) && Gap(f, l, p, prev, To(x))
    ensures WellFormed(Drop(f, x)) <==> x !in l.first
    ensures x !in l.first ==>
              var k := Unthread(l, p, prev, x);
              Threaded(Drop(f, x), Links(k.next - {x}, k.first - {x}))
  {
    assert FirstChild(f, l.first, x);
    DropNeedsChildless(f, x);
    if x !in l.first {
      UnlinkIsValid(f, l, p, prev, x);
      DropThreaded(f, Unthread(l, p, prev, x), x);
    }
  }

  lemma DropThreaded(f: Forest<Resource>, k: Links<Resource>, x: Resource)
    requires Closed(Detach(f, x)) && Threaded(Detach(f, x), k) && Closed(Drop(f, x))
    ensures Threaded(Drop(f, x), Links(k.next - {x}, k.first - {x}))
  {
    var d, g, m := Detach(f, x), Drop(f, x), Links(k.next - {x}, k.first - {x});
    forall p | p in g.span ensures FirstChild(g, m.first, p) {
      assert FirstChild(d, k.first, p);
    }
    forall c | c in g.up ensures NextSibling(g, m.next, c) {
      assert NextSibling(d, k.next, c);
    }
  }

  /** A granted region is what a release of its range finds, and releasing it restores the forest. */
  lemma GrantThenRelease(f: Forest<Resource>, p: Resource, s: Span, q: Resource, x: Resource, y: Resource)
    requires WellFormed(f) && p in f.span && GrantedAt(f, p, s, q) && x !in f.span
    ensures Releasable(WithNew(f, q, x, s), p, s, y) <==> y == x
    ensures Drop(WithNew(f, q, x, s), x) == Forest(f.span, f.up, f.busy - {x})
  {
    var g := WithNew(f, q, x, s);
    NewIsWellFormed(f, q, x, s);
    NewAncestry(f, q, x, s, q, p);
    AtOrBelowSelf(g, x);
    assert Below(g, x, p);
    forall r | r in g.span && Below(g, r, p) && Below(g, x, r) ensures r !in g.busy {
      if r == x {
        NotBelowSelf(g, x);
      } else {
        NewAncestry(f, q, x, s, q, r);
        NewAncestry(f, q, x, s, f.up[r], p);
      }
    }
    assert Releasable(g, p, s, x);
    if Releasable(g, p, s, y) && y != x {
      ReleasableIsUnique(g, p, s, x, y);
    }
    assert Drop(g, x).span == f.span && Drop(g, x).up == f.up && Drop(g, x).busy == f.busy - {x};
  }

  /** A region that holds another one can be released, and the tree is broken: the inner one has no parent left. */
  lemma ReleaseLeavesOrphan() returns (f: Forest<nat>)
    ensures WellFormed(f) && Releasable(f, 0, Span(2, 5), 1) && ChildOf(f, 2, 1) && 2 in f.busy && !WellFormed(Drop(f, 1))
  {
    f := Forest(map[0 := Span(0, 9), 1 := Span(2, 5), 2 := Span(3, 4)], map[1 := 0, 2 := 1], {1, 2});
    assert Ranked(f, map[0 := 2, 1 := 1, 2 := 0]);
    assert WellFormed(f);
    AtOrBelowSelf(f, 0);
    NotBelowSelf(f, 0);
    NotBelowSelf(f, 1);
    AtOrBelowStep(f, 1, 2);
    assert ChildOf(f, 2, 1);
    DropNeedsChildless(f, 1);
  }

  lemma ReleasableIsUnique(f: Forest<Resource>, p: Resource, s: Span, x: Resource, y: Resource)
    requires WellFormed(f) && Releasable(f, p, s, x) && Releasable(f, p, s, y)
    ensures x == y
  {
    var d := ReleasableChild(f, p, s, x);
    AtOrBelowStep(f, x, p);
    AtOrBelowStep(f, y, p);
    var n: nat :| Reaches(f, x, n, p);
    OverlapMeansAncestry(f, x, n, y, p);
    AtOrBelowStep(f, x, y);
    AtOrBelowStep(f, y, x);
  }
}
