/**
  Reserving whatever is still free of a range: the range is split around the resources that are there.
 */
module ResourceReserve {
  import opened ResourceForest
  import opened ResourceBusy
  import opened ResourceLinks
  import opened ResourceTree

  lemma AddLooseKeepsValid(f: Forest<Resource>, l: Links<Resource>, k: Links<Resource>, x: Resource, s: Span, busy: bool)
    requires WellFormed(f) && Threaded(f, l) && x !in f.span
    requires k.first == l.first && x !in l.first && forall c | c in f.up :: Get(k.next, c) == Get(l.next, c)
    ensures WellFormed(AddLoose(f, x, s, busy)) && Threaded(AddLoose(f, x, s, busy), k)
    ensures Loose(AddLoose(f, x, s, busy), x)
  {
    AddLooseWellFormed(f, x, s, busy);
    AddLooseThreaded(f, l, k, x, s, busy);
  }

  lemma AddLooseThreaded(f: Forest<Resource>, l: Links<Resource>, k: Links<Resource>, x: Resource, s: Span, busy: bool)
    requires Closed(f) && Threaded(f, l) && x !in f.span
    requires k.first == l.first && x !in l.first && forall c | c in f.up :: Get(k.next, c) == Get(l.next, c)
    ensures Closed(AddLoose(f, x, s, busy)) && Threaded(AddLoose(f, x, s, busy), k)
  {
    var g := AddLoose(f, x, s, busy);
    forall p | p in g.span ensures FirstChild(g, k.first, p) {
      if p != x {
        assert FirstChild(f, l.first, p);
      }
    }
    forall c | c in g.up ensures NextSibling(g, k.next, c) {
      assert NextSibling(f, l.next, c);
    }
  }

  /** A resource that nothing points to can be counted in. */
  lemma TrackLoose(nodes: set<Resource>, x: Resource)
    requires Valid(nodes) && x !in nodes && x.parent == null && x.child == null
    ensures Valid(nodes + {x}) && Abs(nodes + {x}) == AddLoose(Abs(nodes), x, x.Range(), x.flags.busy)
  {
    var f, l := Abs(nodes), LinksOf(nodes);
    assert Abs(nodes + {x}) == AddLoose(f, x, x.Range(), x.flags.busy);
    AddLooseKeepsValid(f, l, LinksOf(nodes + {x}), x, x.Range(), x.flags.busy);
  }

  /** A child of `root` holds the address `a`. */
  ghost predicate Taken(f: Forest<Resource>, root: Resource, a: int)
    requires Closed(f)
  {
    exists c | c in f.up :: f.up[c] == root && f.span[c].lo <= a <= f.span[c].hi
  }

  /** `s` is a largest stretch of `start..end` that no child of `root` touches. */
  ghost predicate MaximalGap(f: Forest<Resource>, root: Resource, start: int, end: int, s: Span)
    requires Closed(f)
  {
    && s.Proper() && start <= s.lo && s.hi <= end
    && (forall c | ChildOf(f, c, root) :: !f.span[c].Overlaps(s))
    && (s.lo == start || Taken(f, root, s.lo - 1))
    && (s.hi == end || Taken(f, root, s.hi + 1))
  }

  /** `g` is `f` with the resources in `added` as BUSY children of `root`, each a maximal gap of `start..end`. */
  ghost predicate Reserves(f: Forest<Resource>, g: Forest<Resource>, root: Resource, start: int, end: int, added: set<Resource>)
    requires Closed(f) && Closed(g)
  {
    && g.span.Keys == f.span.Keys + added && f.span.Keys !! added
    && (forall r | r in f.span :: g.span[r] == f.span[r])
    && g.up.Keys == f.up.Keys + added
    && (forall r | r in f.up :: g.up[r] == f.up[r])
    && (forall r | r in added :: g.up[r] == root && MaximalGap(f, root, start, end, g.span[r]))
    && g.busy == f.busy + added
  }

  /**
    What is left to do: `cur` and, after it, `rest` are still to be reserved; the addresses before `cur` and
    those behind it up to `rest` are taken.
   */
  ghost predicate Remaining(f: Forest<Resource>, g: Forest<Resource>, root: Resource, start: int, end: int,
                            added: set<Resource>, cur: Span, rest: Ptr<Span>)
    requires Closed(f) && Closed(g)
  {
    && root in f.span && root !in added && f.span[root].Contains(Span(start, end))
    && Reserves(f, g, root, start, end, added)
    && start <= cur.lo && cur.hi <= end && cur.Proper()
    && (forall r | r in added :: g.span[r].hi < cur.lo)
    && (forall a | start <= a < cur.lo :: Taken(g, root, a))
    && (cur.lo == start || Taken(f, root, cur.lo - 1))
    && (forall a | cur.hi < a < (if rest.To? then rest.id.lo else end + 1) :: Taken(f, root, a))
    && (rest.To? ==> rest.id.hi == end && cur.hi + 1 < rest.id.lo <= end)
    && (cur.hi < end ==> CanHold(g, root, cur))
  }

  /** The first step: everything is still to be done. */
  lemma RemainingAll(f: Forest<Resource>, root: Resource, start: int, end: int)
    requires Closed(f) && root in f.span && start <= end && f.span[root].Contains(Span(start, end))
    ensures Remaining(f, f, root, start, end, {}, Span(start, end), Null)
  {
  }

  lemma TakenStays(f: Forest<Resource>, g: Forest<Resource>, root: Resource, start: int, end: int, added: set<Resource>, a: int)
    requires Closed(f) && Closed(g) && Reserves(f, g, root, start, end, added) && Taken(f, root, a)
    ensures Taken(g, root, a)
  {
    var c :| c in f.up && f.up[c] == root && f.span[c].lo <= a <= f.span[c].hi;
    assert c in g.up;
  }

  /** Only resources that were there before can be in the way. */
  lemma ConflictIsOld(f: Forest<Resource>, g: Forest<Resource>, root: Resource, start: int, end: int,
                      added: set<Resource>, cur: Span, rest: Ptr<Span>, c: Resource)
    requires WellFormed(f) && WellFormed(g) && Remaining(f, g, root, start, end, added, cur, rest) && Blocks(g, root, cur, c)
    ensures rest == Null && ChildOf(f, c, root) && f.span[c] == g.span[c] && Blocks(f, root, cur, c)
  {
    forall d | ChildOf(f, d, root) && f.span[d].Overlaps(cur) ensures f.span[c].lo <= f.span[d].lo {
      assert ChildOf(g, d, root);
    }
  }

  lemma PlaceReserves(f: Forest<Resource>, g: Forest<Resource>, root: Resource, start: int, end: int,
                      added: set<Resource>, cur: Span, x: Resource)
    requires Closed(f) && Closed(g) && root in f.span && Reserves(f, g, root, start, end, added) && x !in g.span
    requires MaximalGap(f, root, start, end, cur)
    ensures Closed(WithNew(g, root, x, cur)) && Reserves(f, WithNew(g, root, x, cur), root, start, end, added + {x})
  {
  }

  lemma PlaceTaken(f: Forest<Resource>, g: Forest<Resource>, root: Resource, start: int, end: int,
                   added: set<Resource>, cur: Span, rest: Ptr<Span>, x: Resource, a: int)
    requires Closed(f) && Closed(g) && Remaining(f, g, root, start, end, added, cur, rest) && x !in g.span
    requires Closed(WithNew(g, root, x, cur)) && Reserves(f, WithNew(g, root, x, cur), root, start, end, added + {x})
    requires start <= a < (if rest.To? then rest.id.lo else end + 1)
    ensures Taken(WithNew(g, root, x, cur), root, a)
  {
    hide MaximalGap, CanHold, Reserves;
    var h := WithNew(g, root, x, cur);
    if a < cur.lo {
      assert Taken(g, root, a);
      var c :| c in g.up && g.up[c] == root && g.span[c].lo <= a <= g.span[c].hi;
      assert c in h.up && h.up[c] == root;
    } else if a <= cur.hi {
      assert x in h.up && h.up[x] == root;
    } else {
      assert Taken(f, root, a);
      TakenStays(f, h, root, start, end, added + {x}, a);
    }
  }

  lemma CurIsGap(f: Forest<Resource>, g: Forest<Resource>, root: Resource, start: int, end: int,
                 added: set<Resource>, cur: Span, rest: Ptr<Span>)
    requires Closed(f) && Closed(g) && Remaining(f, g, root, start, end, added, cur, rest) && CanHold(g, root, cur)
    ensures MaximalGap(f, root, start, end, cur)
    ensures rest.To? ==> Taken(f, root, rest.id.lo - 1)
  {
    forall c | ChildOf(f, c, root) ensures !f.span[c].Overlaps(cur) {
      assert ChildOf(g, c, root);
    }
    assert cur.hi == end || Taken(f, root, cur.hi + 1);
  }

  /** `cur` is free: once it is in, `rest` is left. */
  lemma Place(f: Forest<Resource>, g: Forest<Resource>, root: Resource, start: int, end: int,
              added: set<Resource>, cur: Span, rest: Ptr<Span>, x: Resource)
    requires Closed(f) && Closed(g) && Remaining(f, g, root, start, end, added, cur, rest)
    requires CanHold(g, root, cur) && x !in g.span
    ensures Closed(WithNew(g, root, x, cur)) && Reserves(f, WithNew(g, root, x, cur), root, start, end, added + {x})
    ensures rest == Null ==> forall a | start <= a <= end :: Taken(WithNew(g, root, x, cur), root, a)
    ensures rest.To? ==> Remaining(f, WithNew(g, root, x, cur), root, start, end, added + {x}, rest.id, Null)
  {
    hide Taken, MaximalGap;
    CurIsGap(f, g, root, start, end, added, cur, rest);
    PlaceReserves(f, g, root, start, end, added, cur, x);
    forall a | start <= a < (if rest.To? then rest.id.lo else end + 1) ensures Taken(WithNew(g, root, x, cur), root, a) {
      PlaceTaken(f, g, root, start, end, added, cur, rest, x, a);
    }
  }

  /** The forest `g`, threaded by `l`, is `f` with `added` put in, and `cur` and `rest` are still to do. */
  ghost predicate State(f: Forest<Resource>, g: Forest<Resource>, l: Links<Resource>, root: Resource, start: int, end: int,
                        added: set<Resource>, cur: Span, rest: Ptr<Span>)
  {
    WellFormed(f) && WellFormed(g) && Threaded(g, l) && Remaining(f, g, root, start, end, added, cur, rest)
  }

  ghost predicate Finished(f: Forest<Resource>, g: Forest<Resource>, l: Links<Resource>, root: Resource, start: int, end: int,
                           added: set<Resource>)
  {
    && Closed(f) && WellFormed(g) && Threaded(g, l) && Reserves(f, g, root, start, end, added)
    && forall a | start <= a <= end :: Taken(g, root, a)
  }

  /** Every maximal gap is one of the resources added. */
  ghost predicate FillsGaps(f: Forest<Resource>, g: Forest<Resource>, root: Resource, start: int, end: int, added: set<Resource>)
    requires Closed(f)
  {
    forall s {:trigger MaximalGap(f, root, start, end, s)} | MaximalGap(f, root, start, end, s) ::
      exists r | r in added && r in g.span :: g.span[r] == s
  }

  /** Where the whole range is taken and only gaps were filled, every gap is filled. */
  lemma FinishedFillsGaps(f: Forest<Resource>, g: Forest<Resource>, l: Links<Resource>, root: Resource, start: int, end: int,
                          added: set<Resource>)
    requires Finished(f, g, l, root, start, end, added)
    ensures FillsGaps(f, g, root, start, end, added)
  {
    forall s | MaximalGap(f, root, start, end, s) ensures exists r | r in added && r in g.span :: g.span[r] == s {
      var r := FillerOf(f, g, root, start, end, added, s);
    }
  }

  lemma FillerOf(f: Forest<Resource>, g: Forest<Resource>, root: Resource, start: int, end: int, added: set<Resource>, s: Span)
    returns (r: Resource)
    requires Closed(f) && Closed(g) && Reserves(f, g, root, start, end, added) && MaximalGap(f, root, start, end, s)
    requires forall a | start <= a <= end :: Taken(g, root, a)
    ensures r in added && r in g.span && g.span[r] == s
  {
    hide MaximalGap, Reserves;
    GapBounds(f, root, start, end, s);
    assert Taken(g, root, s.lo);
    r :| r in g.up && g.up[r] == root && g.span[r].lo <= s.lo <= g.span[r].hi;
    GapNotOld(f, root, start, end, s, r);
    ReservedOrOld(f, g, root, start, end, added, r);
    GapsMeetOnlyThemselves(f, root, start, end, s, g.span[r]);
  }

  lemma ReservedOrOld(f: Forest<Resource>, g: Forest<Resource>, root: Resource, start: int, end: int, added: set<Resource>, r: Resource)
    requires Closed(f) && Closed(g) && Reserves(f, g, root, start, end, added) && ChildOf(g, r, root)
    ensures if r in added then MaximalGap(f, root, start, end, g.span[r]) else ChildOf(f, r, root) && f.span[r] == g.span[r]
  {
    hide MaximalGap;
  }

  lemma GapBounds(f: Forest<Resource>, root: Resource, start: int, end: int, s: Span)
    requires Closed(f) && MaximalGap(f, root, start, end, s)
    ensures start <= s.lo <= s.hi <= end
  {
  }

  lemma GapNotOld(f: Forest<Resource>, root: Resource, start: int, end: int, s: Span, r: Resource)
    requires Closed(f) && MaximalGap(f, root, start, end, s)
    ensures r in f.up && f.up[r] == root ==> !(f.span[r].lo <= s.lo <= f.span[r].hi)
  {
  }

  lemma GapsMeetOnlyThemselves(f: Forest<Resource>, root: Resource, start: int, end: int, s: Span, t: Span)
    requires Closed(f) && MaximalGap(f, root, start, end, s) && MaximalGap(f, root, start, end, t) && t.lo <= s.lo <= t.hi
    ensures s == t
  {
    GapEnds(f, root, start, end, s, t, s.lo - 1);
    GapEnds(f, root, start, end, s, t, s.hi + 1);
    GapEnds(f, root, start, end, t, s, t.hi + 1);
  }

  /** What is taken lies in no gap. */
  lemma GapEnds(f: Forest<Resource>, root: Resource, start: int, end: int, s: Span, t: Span, a: int)
    requires Closed(f) && MaximalGap(f, root, start, end, t)
    ensures Taken(f, root, a) ==> !(t.lo <= a <= t.hi)
  {
    forall c | ChildOf(f, c, root) ensures !(f.span[c].lo <= a <= f.span[c].hi && t.lo <= a <= t.hi) {
      assert !f.span[c].Overlaps(t);
    }
  }

  /** A reservation is a sequence of requests for new BUSY resources, one for each gap. */
  lemma {:induction false} ReservedIsPath(f: Forest<Resource>, g: Forest<Resource>, root: Resource, start: int, end: int,
                                          added: set<Resource>)
    returns (forests: seq<Forest<Resource>>, ops: seq<Op<Resource>>)
    requires WellFormed(f) && WellFormed(g) && root in f.span && f.busy <= f.span.Keys
    requires Reserves(f, g, root, start, end, added)
    ensures Path(forests, ops) && forests[0] == f && forests[|ops|] == g && |ops| == 2 * |added|
    ensures forall i | 0 <= i < |ops| :: LeavesGrants(ops[i])
    decreases |added|
  {
    hide WellFormed, Moves, MaximalGap, Reserves, Path;
    if added == {} {
      NothingReserved(f, g, root, start, end);
      forests, ops := [f], [];
    } else {
      var r :| r in added;
      WithoutReserved(f, g, root, start, end, added, r);
      LastReserved(f, g, root, start, end, added, r);
      var h, k := Drop(g, r), AddLoose(Drop(g, r), r, g.span[r], true);
      assert |added - {r}| == |added| - 1;
      var hs, os := ReservedIsPath(f, h, root, start, end, added - {r});
      PathGrows(hs, os, New(r, g.span[r], true), k);
      PathGrows(hs + [k], os + [New(r, g.span[r], true)], Request(root, r), g);
      forests, ops := hs + [k] + [g], os + [New(r, g.span[r], true)] + [Request(root, r)];
    }
  }

  lemma NothingReserved(f: Forest<Resource>, g: Forest<Resource>, root: Resource, start: int, end: int)
    requires WellFormed(f) && WellFormed(g) && Reserves(f, g, root, start, end, {})
    ensures f == g && Path([f], [])
  {
    assert g.span == f.span && g.up == f.up && g.busy == f.busy;
  }

  lemma WithoutReserved(f: Forest<Resource>, g: Forest<Resource>, root: Resource, start: int, end: int, added: set<Resource>, r: Resource)
    requires WellFormed(f) && WellFormed(g) && root in f.span && f.busy <= f.span.Keys
    requires Reserves(f, g, root, start, end, added) && r in added
    ensures r in g.span && WellFormed(Drop(g, r)) && Reserves(f, Drop(g, r), root, start, end, added - {r})
  {
    hide MaximalGap, Nested, SiblingsDisjoint, Ranked;
    assert Childless(g, r);
    DropKeepsWellFormed(g, r);
  }

  lemma LastReserved(f: Forest<Resource>, g: Forest<Resource>, root: Resource, start: int, end: int, added: set<Resource>, r: Resource)
    requires WellFormed(f) && WellFormed(g) && root in f.span && Reserves(f, g, root, start, end, added) && r in added
    requires r in g.span && WellFormed(Drop(g, r))
    ensures var k := AddLoose(Drop(g, r), r, g.span[r], true);
            Moves(Drop(g, r), New(r, g.span[r], true), k) && Moves(k, Request(root, r), g)
  {
    var k := AddLoose(Drop(g, r), r, g.span[r], true);
    ReservedIsChild(f, g, root, start, end, added, r);
    ReservedFits(g, root, r);
    BackIn(g, root, r);
    AddLooseWellFormed(Drop(g, r), r, g.span[r], true);
    hide WellFormed, Reserves, CanHold;
  }

  lemma ReservedIsChild(f: Forest<Resource>, g: Forest<Resource>, root: Resource, start: int, end: int, added: set<Resource>, r: Resource)
    requires Closed(f) && Closed(g) && root in f.span && Reserves(f, g, root, start, end, added) && r in added
    ensures ChildOf(g, r, root) && g.span[r].Proper() && r in g.busy && root != r && root in g.span
  {
  }

  /** Without `r` there is room for it. */
  lemma ReservedFits(g: Forest<Resource>, root: Resource, r: Resource)
    requires WellFormed(g) && ChildOf(g, r, root) && root in g.span && root != r && g.span[r].Proper()
    requires Closed(AddLoose(Drop(g, r), r, g.span[r], true))
    ensures CanHold(AddLoose(Drop(g, r), r, g.span[r], true), root, g.span[r])
  {
    hide Ranked;
    var k := AddLoose(Drop(g, r), r, g.span[r], true);
    forall d | ChildOf(k, d, root) ensures !k.span[d].Overlaps(g.span[r]) {
      assert d in g.up && g.up[d] == g.up[r];
    }
  }

  lemma BackIn(g: Forest<Resource>, root: Resource, r: Resource)
    requires ChildOf(g, r, root) && r in g.span && r in g.busy
    ensures Attach(AddLoose(Drop(g, r), r, g.span[r], true), root, r) == g
  {
    var k := AddLoose(Drop(g, r), r, g.span[r], true);
    assert k.span == g.span && k.busy == g.busy && Attach(k, root, r).up == g.up;
  }

  /** `cur` is partly taken by `c`: what is left of it lies before `c`, behind it, or both. */
  lemma Split(f: Forest<Resource>, g: Forest<Resource>, l: Links<Resource>, root: Resource, start: int, end: int,
              added: set<Resource>, cur: Span, c: Resource)
    requires State(f, g, l, root, start, end, added, cur, Null)
    requires Blocks(f, root, cur, c) && Blocks(g, root, cur, c) && f.span[c] == g.span[c] && !f.span[c].Contains(cur)
    ensures cur.hi == end
    ensures cur.lo < f.span[c].lo ==>
              State(f, g, l, root, start, end, added, Span(cur.lo, f.span[c].lo - 1),
                    if f.span[c].hi < end then To(Span(f.span[c].hi + 1, end)) else Null)
    ensures f.span[c].lo <= cur.lo ==> State(f, g, l, root, start, end, added, Span(f.span[c].hi + 1, end), Null)
  {
    forall a | f.span[c].lo <= a <= f.span[c].hi ensures Taken(f, root, a) {
      assert c in f.up && f.up[c] == root;
    }
    forall a | start <= a <= f.span[c].hi && (f.span[c].lo <= a || a < cur.lo) ensures Taken(g, root, a) {
      if f.span[c].lo <= a {
        TakenStays(f, g, root, start, end, added, a);
      }
    }
    forall d | ChildOf(g, d, root) ensures !g.span[d].Overlaps(Span(cur.lo, f.span[c].lo - 1)) || f.span[c].lo <= cur.lo {
    }
  }

  /** `res` is a fresh resource of the range `s`, marked BUSY and linked to nothing. */
  ghost predicate Pending(nodes: set<Resource>, res: Resource, s: Span)
    reads res
  {
    res !in nodes && res.parent == null && res.child == null && res.Range() == s && res.flags.busy
  }

  /** Requests the range of `res` below `root`; if it is granted, `res` counts among the nodes. */
  method RequestPending(ghost nodes: set<Resource>, root: Resource, res: Resource) returns (conflict: Resource?)
    requires Valid(nodes) && root in nodes && Pending(nodes, res, res.Range())
    modifies nodes`parent, nodes`sibling, nodes`child, res`parent, res`sibling, res`child
    ensures conflict == null ==> Valid(nodes + {res}) && CanHold(old(Abs(nodes)), root, res.Range())
                                 && Abs(nodes + {res}) == WithNew(old(Abs(nodes)), root, res, res.Range())
    ensures conflict == root <==> !(res.Range().Proper() && root.Range().Contains(res.Range()))
    ensures conflict != null ==> unchanged(nodes) && unchanged(res) && conflict in nodes
    ensures conflict != null && conflict != root ==> Blocks(Abs(nodes), root, res.Range(), conflict)
  {
    TrackLoose(nodes, res);
    ghost var g := Abs(nodes);
    conflict := RequestResource(nodes + {res}, root, res);
    if conflict == null {
      LooseCanHold(g, root, res, res.Range());
    } else if conflict != root {
      LooseBlocks(g, root, res, res.Range(), conflict);
    }
  }

  lemma LooseCanHold(g: Forest<Resource>, root: Resource, x: Resource, s: Span)
    requires WellFormed(g) && root in g.span && x !in g.span && Closed(AddLoose(g, x, s, true)) && CanHold(AddLoose(g, x, s, true), root, s)
    ensures CanHold(g, root, s)
  {
  }

  lemma LooseBlocks(g: Forest<Resource>, root: Resource, x: Resource, s: Span, c: Resource)
    requires WellFormed(g) && x !in g.span && Closed(AddLoose(g, x, s, true)) && Blocks(AddLoose(g, x, s, true), root, s, c)
    ensures Blocks(g, root, s, c)
  {
  }

  method NewBusy(start: int, end: int) returns (res: Resource)
    ensures fresh(res) && res.parent == null && res.child == null && res.Range() == Span(start, end) && res.flags.busy
  {
    res := new Resource(start, end, Flags(0, true, false, false));
  }

  ghost function RangeOf(r: Resource?): Ptr<Span>
    reads r
  {
    if r == null then Null else To(r.Range())
  }

  /** The two resources that wait outside the tree over `live`. */
  ghost predicate Waiting(live: set<Resource>, res: Resource, next: Resource?)
    reads res, next
  {
    && Pending(live, res, res.Range())
    && (next != null ==> next != res && Pending(live, next, next.Range()))
  }

  /** Cuts `conflict` out of the range of `res`; what lies behind it becomes a resource of its own. */
  method CutOut(ghost f: Forest<Resource>, ghost g: Forest<Resource>, ghost l: Links<Resource>, ghost root: Resource,
                ghost start: int, ghost end: int, ghost added: set<Resource>, res: Resource, conflict: Resource)
    returns (next: Resource?)
    requires State(f, g, l, root, start, end, added, res.Range(), Null)
    requires Blocks(f, root, res.Range(), conflict) && Blocks(g, root, res.Range(), conflict)
    requires conflict != res && f.span[conflict] == g.span[conflict] == conflict.Range()
    requires !conflict.Range().Contains(res.Range())
    modifies res`start, res`end
    ensures State(f, g, l, root, start, end, added, res.Range(), RangeOf(next))
    ensures next != null ==> fresh(next) && next.parent == null && next.child == null && next.flags.busy
    ensures old(res.start) < res.start || (old(res.start) == res.start && res.end < old(res.end))
  {
    hide State;
    Split(f, g, l, root, start, end, added, res.Range(), conflict);
    next := null;
    if conflict.start > res.start {
      var e := res.end;
      res.end := conflict.start - 1;
      if conflict.end < e {
        next := NewBusy(conflict.end + 1, e);
      }
    } else {
      res.start := conflict.end + 1;
    }
  }

  lemma AfterPlacing(f: Forest<Resource>, g: Forest<Resource>, l: Links<Resource>, l': Links<Resource>, root: Resource,
                     start: int, end: int, added: set<Resource>, cur: Span, rest: Ptr<Span>, x: Resource)
    requires State(f, g, l, root, start, end, added, cur, rest) && CanHold(g, root, cur) && x !in g.span
    requires WellFormed(WithNew(g, root, x, cur)) && Threaded(WithNew(g, root, x, cur), l')
    ensures rest == Null ==> Finished(f, WithNew(g, root, x, cur), l', root, start, end, added + {x})
    ensures rest.To? ==> State(f, WithNew(g, root, x, cur), l', root, start, end, added + {x}, rest.id, Null)
  {
    Place(f, g, root, start, end, added, cur, rest, x);
  }

  /** `conflict` takes all of `res`, or is cut out of it. */
  method OnConflict(ghost live: set<Resource>, ghost f: Forest<Resource>, ghost g: Forest<Resource>, ghost l: Links<Resource>,
                    ghost root: Resource, ghost start: int, ghost end: int, ghost added: set<Resource>,
                    res: Resource, ghost next: Resource?, conflict: Resource)
    returns (done: bool, next': Resource?)
    requires State(f, g, l, root, start, end, added, res.Range(), RangeOf(next)) && Waiting(live, res, next)
    requires conflict in live && Blocks(g, root, res.Range(), conflict) && g.span[conflict] == conflict.Range()
    modifies res`start, res`end
    ensures next == null
    ensures done ==> Finished(f, g, l, root, start, end, added)
    ensures !done ==> State(f, g, l, root, start, end, added, res.Range(), RangeOf(next'))
    ensures !done ==> next' != null ==> fresh(next') && next'.parent == null && next'.child == null && next'.flags.busy
    ensures !done ==> old(res.start) < res.start || (old(res.start) == res.start && res.end < old(res.end))
  {
    ConflictIsOld(f, g, root, start, end, added, res.Range(), RangeOf(next), conflict);
    if conflict.start <= res.start && conflict.end >= res.end {
      AllTaken(f, g, root, start, end, added, res.Range(), conflict);
      return true, null;
    }
    next' := CutOut(f, g, l, root, start, end, added, res, conflict);
    return false, next';
  }

  /** One round: `res` is put in, found to be taken already, or cut. */
  method ReserveStep(ghost live: set<Resource>, ghost f: Forest<Resource>, root: Resource, ghost start: int, ghost end: int,
                     ghost added: set<Resource>, res: Resource, next: Resource?)
    returns (done: bool, ghost live': set<Resource>, ghost added': set<Resource>, res': Resource, next': Resource?)
    requires State(f, Abs(live), LinksOf(live), root, start, end, added, res.Range(), RangeOf(next)) && Waiting(live, res, next)
    modifies live`parent, live`sibling, live`child, res
    ensures (live' == live && added' == added) || (live' == live + {res} && added' == added + {res})
    ensures done ==> Finished(f, Abs(live'), LinksOf(live'), root, start, end, added')
    ensures !done ==> State(f, Abs(live'), LinksOf(live'), root, start, end, added', res'.Range(), RangeOf(next'))
    ensures !done ==> Waiting(live', res', next') && (res' == res || res' == next) && (next' != null ==> fresh(next'))
    ensures !done ==> old(res.start) < res'.start || (old(res.start) == res'.start && res'.end < old(res.end))
    ensures !done ==> res'.start <= res'.end <= end
  {
    hide Remaining, Threaded, Reserves, WellFormed, State, Finished;
    ghost var g, l := Abs(live), LinksOf(live);
    RemainingFits(f, g, l, root, start, end, added, res.Range(), RangeOf(next));
    var conflict := RequestPending(live, root, res);
    if conflict == null {
      AfterPlacing(f, g, l, LinksOf(live + {res}), root, start, end, added, res.Range(), RangeOf(next), res);
      if next == null {
        return true, live + {res}, added + {res}, res, null;
      }
      return false, live + {res}, added + {res}, next, null;
    }
    done, next' := OnConflict(live, f, g, l, root, start, end, added, res, next, conflict);
    assert Abs(live) == g && LinksOf(live) == l;
    if !done {
      RemainingFits(f, g, l, root, start, end, added, res.Range(), RangeOf(next'));
    }
    return done, live, added, res, next';
  }

  lemma RemainingFits(f: Forest<Resource>, g: Forest<Resource>, l: Links<Resource>, root: Resource, start: int, end: int,
                      added: set<Resource>, cur: Span, rest: Ptr<Span>)
    requires State(f, g, l, root, start, end, added, cur, rest)
    ensures cur.Proper() && root in g.span && g.span[root].Contains(cur) && WellFormed(g) && Threaded(g, l)
    ensures cur.hi <= end && (rest.To? ==> cur.lo < rest.id.lo <= rest.id.hi <= end)
  {
  }

  lemma AtStart(f: Forest<Resource>, l: Links<Resource>, root: Resource, start: int, end: int)
    requires WellFormed(f) && Threaded(f, l) && root in f.span && start <= end && f.span[root].Contains(Span(start, end))
    ensures State(f, f, l, root, start, end, {}, Span(start, end), Null)
  {
    RemainingAll(f, root, start, end);
  }

  /**
    Reserves all of `start..end` that is still free below `root`: afterwards every address of the range lies
    in a child of `root`, the new children are exactly the maximal gaps, and nothing else has changed.
   */
  method ReserveRegionWithSplit(ghost nodes: set<Resource>, root: Resource, start: int, end: int)
    returns (ghost live: set<Resource>, ghost added: set<Resource>)
    requires Valid(nodes) && root in nodes && root.start <= start <= end <= root.end
    modifies nodes`parent, nodes`sibling, nodes`child
    ensures fresh(added) && live == nodes + added
    ensures Finished(old(Abs(nodes)), Abs(live), LinksOf(live), root, start, end, added)
    ensures FillsGaps(old(Abs(nodes)), Abs(live), root, start, end, added)
  {
    hide FillsGaps, State, Finished, Threaded, WellFormed;
    ghost var f := Abs(nodes);
    live, added := nodes, {};
    AtStart(f, LinksOf(nodes), root, start, end);
    var res := NewBusy(start, end);
    var next: Resource? := null;
    var done := false;
    while !done
      invariant fresh(added) && live == nodes + added && (!done ==> fresh(res) && (next != null ==> fresh(next)))
      invariant !done ==> Waiting(live, res, next) && res.start <= res.end <= end
      invariant !done ==> State(f, Abs(live), LinksOf(live), root, start, end, added, res.Range(), RangeOf(next))
      invariant done ==> Finished(f, Abs(live), LinksOf(live), root, start, end, added)
      decreases !done, end - res.start, res.end - res.start
    {
      done, live, added, res, next := ReserveStep(live, f, root, start, end, added, res, next);
    }
    FinishedFillsGaps(f, Abs(live), LinksOf(live), root, start, end, added);
  }

  lemma AllTaken(f: Forest<Resource>, g: Forest<Resource>, root: Resource, start: int, end: int,
                 added: set<Resource>, cur: Span, c: Resource)
    requires Closed(f) && Closed(g) && Remaining(f, g, root, start, end, added, cur, Null)
    requires Blocks(g, root, cur, c) && g.span[c].Contains(cur)
    ensures forall a | start <= a <= end :: Taken(g, root, a)
  {
    forall a | start <= a <= end ensures Taken(g, root, a) {
      if cur.lo <= a {
        assert c in g.up && g.up[c] == root;
      }
    }
  }

  /** The entry point: the part of the range that lies outside `root` is cut off first. */
  method ReserveRegion(ghost nodes: set<Resource>, root: Resource, start: int, end: int)
    returns (s: int, e: int, ghost live: set<Resource>, ghost added: set<Resource>)
    requires Valid(nodes) && root in nodes
    modifies nodes`parent, nodes`sibling, nodes`child
    ensures fresh(added) && live == nodes + added
    ensures Finished(old(Abs(nodes)), Abs(live), LinksOf(live), root, s, e, added)
    ensures FillsGaps(old(Abs(nodes)), Abs(live), root, s, e, added)
    ensures if start > end || start > root.end || end < root.start then s > e
            else s == (if start < root.start then root.start else start) && e == (if end > root.end then root.end else end)
  {
    s, e, live, added := start, end, nodes, {};
    if root.start > s || root.end < e {
      if s > root.end || e < root.start {
        return 0, -1, nodes, {};
      }
      if e > root.end {
        e := root.end;
      }
      if s < root.start {
        s := root.start;
      }
    }
    if s <= e {
      live, added := ReserveRegionWithSplit(nodes, root, s, e);
    }
  }
}
