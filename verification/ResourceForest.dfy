/**
  The resource tree as a value: which range every resource spans, which resource
  is its parent, and which resources are BUSY.  Sibling order is not recorded,
  because the ranges of well-formed siblings determine it.
 */
module ResourceForest {

  /** A closed range of addresses. */
  datatype Span = Span(lo: int, hi: int) {
    predicate Proper() {
      lo <= hi
    }

    predicate Contains(o: Span) {
      lo <= o.lo && o.hi <= hi
    }

    predicate Overlaps(o: Span) {
      lo <= o.hi && o.lo <= hi
    }

    /** The two ranges meet, but neither lies inside the other. */
    predicate PartlyOverlaps(o: Span) {
      Overlaps(o) && !Contains(o) && !o.Contains(this)
    }

    /** Strictly larger range around `o`. */
    predicate Encloses(o: Span) {
      Contains(o) && this != o
    }

    /** The least range that contains both. */
    function Join(o: Span): Span {
      Span(if o.lo < lo then o.lo else lo, if o.hi > hi then o.hi else hi)
    }
  }

  datatype Forest<Id> = Forest(span: map<Id, Span>, up: map<Id, Id>, busy: set<Id>)

  ghost predicate ChildOf<Id>(f: Forest<Id>, older c: Id, p: Id) {
    c in f.up && f.up[c] == p
  }

  ghost predicate Closed<Id>(f: Forest<Id>) {
    forall c | c in f.up :: c in f.span && f.up[c] in f.span
  }

  /** Children lie inside their parent. */
  ghost predicate Nested<Id>(f: Forest<Id>)
    requires Closed(f)
  {
    forall c | c in f.up :: f.span[c].Proper() && f.span[f.up[c]].Contains(f.span[c])
  }

  ghost predicate SiblingsDisjoint<Id>(f: Forest<Id>)
    requires Closed(f)
  {
    forall c, d {:trigger f.span[c].Overlaps(f.span[d])} | c in f.up && d in f.up && c != d && f.up[c] == f.up[d] ::
      !f.span[c].Overlaps(f.span[d])
  }

  /** `rank` falls from parent to child, so the parent relation has no cycle. */
  ghost predicate Ranked<Id>(f: Forest<Id>, older rank: map<Id, nat>) {
    && rank.Keys == f.span.Keys
    && forall c | c in f.up :: c in rank && f.up[c] in rank && rank[c] < rank[f.up[c]]
  }

  ghost predicate WellFormed<Id>(f: Forest<Id>) {
    && Closed(f)
    && Nested(f)
    && SiblingsDisjoint(f)
    && exists rank :: Ranked(f, rank)
  }

  /** `a` is reached from `c` by following `n` parent links. */
  ghost predicate Reaches<Id>(f: Forest<Id>, c: Id, n: nat, a: Id) {
    if n == 0 then c == a else c in f.up && Reaches(f, f.up[c], n - 1, a)
  }

  ghost predicate AtOrBelow<Id>(f: Forest<Id>, c: Id, a: Id) {
    exists n: nat :: Reaches(f, c, n, a)
  }

  ghost predicate Below<Id>(f: Forest<Id>, c: Id, a: Id) {
    c in f.up && AtOrBelow(f, f.up[c], a)
  }

  // ---------------------------------------------------------------- ancestry

  lemma AtOrBelowSelf<Id>(f: Forest<Id>, c: Id)
    ensures AtOrBelow(f, c, c)
  {
    assert Reaches(f, c, 0, c);
  }

  lemma AtOrBelowStep<Id>(f: Forest<Id>, c: Id, a: Id)
    ensures AtOrBelow(f, c, a) <==> c == a || Below(f, c, a)
  {
    if AtOrBelow(f, c, a) {
      var n: nat :| Reaches(f, c, n, a);
      if n > 0 {
        assert Reaches(f, f.up[c], n - 1, a);
      }
    }
    if Below(f, c, a) {
      var n: nat :| Reaches(f, f.up[c], n, a);
      assert Reaches(f, c, n + 1, a);
    }
    AtOrBelowSelf(f, c);
  }

  lemma {:induction false} ReachesTrans<Id>(f: Forest<Id>, c: Id, n: nat, b: Id, m: nat, a: Id)
    requires Reaches(f, c, n, b) && Reaches(f, b, m, a)
    ensures Reaches(f, c, n + m, a)
  {
    if n > 0 {
      ReachesTrans(f, f.up[c], n - 1, b, m, a);
    }
  }

  lemma AtOrBelowTrans<Id>(f: Forest<Id>, c: Id, b: Id, a: Id)
    requires AtOrBelow(f, c, b) && AtOrBelow(f, b, a)
    ensures AtOrBelow(f, c, a)
  {
    var n: nat :| Reaches(f, c, n, b);
    var m: nat :| Reaches(f, b, m, a);
    ReachesTrans(f, c, n, b, m, a);
  }

  lemma {:induction false} ReachesSpan<Id>(f: Forest<Id>, c: Id, n: nat, a: Id)
    requires WellFormed(f) && Reaches(f, c, n, a) && c in f.span
    ensures a in f.span && f.span[a].Contains(f.span[c])
  {
    if n > 0 {
      ReachesSpan(f, f.up[c], n - 1, a);
    }
  }

  lemma AtOrBelowSpan<Id>(f: Forest<Id>, c: Id, a: Id)
    requires WellFormed(f) && AtOrBelow(f, c, a) && c in f.span
    ensures a in f.span && f.span[a].Contains(f.span[c])
  {
    var n: nat :| Reaches(f, c, n, a);
    ReachesSpan(f, c, n, a);
  }

  lemma {:induction false} ReachesRank<Id>(f: Forest<Id>, rank: map<Id, nat>, c: Id, n: nat, a: Id)
    requires Ranked(f, rank) && Reaches(f, c, n, a) && n > 0
    ensures c in rank && a in rank && rank[c] < rank[a]
  {
    if n > 1 {
      ReachesRank(f, rank, f.up[c], n - 1, a);
    }
  }

  lemma NotBelowSelf<Id>(f: Forest<Id>, c: Id)
    requires WellFormed(f)
    ensures !Below(f, c, c)
  {
    if Below(f, c, c) {
      var rank :| Ranked(f, rank);
      var n: nat :| Reaches(f, f.up[c], n, c);
      ReachesRank(f, rank, c, n + 1, c);
    }
  }

  /** Every way down from `a` to something strictly below it passes through a child of `a`. */
  lemma {:induction false} ChildOnPath<Id>(f: Forest<Id>, c: Id, n: nat, a: Id) returns (d: Id)
    requires Reaches(f, c, n, a) && n > 0
    ensures ChildOf(f, d, a) && AtOrBelow(f, c, d)
  {
    if n == 1 {
      d := c;
      AtOrBelowSelf(f, c);
    } else {
      d := ChildOnPath(f, f.up[c], n - 1, a);
      AtOrBelowStep(f, c, d);
    }
  }

  /**
    Ranges that meet belong to resources of which one is an ancestor of the other
    (or they are the same resource): a well-formed tree has no other overlap.
   */
  lemma {:induction false} OverlapMeansAncestry<Id>(f: Forest<Id>, x: Id, n: nat, y: Id, r: Id)
    requires WellFormed(f) && x in f.span && y in f.span
    requires Reaches(f, x, n, r) && AtOrBelow(f, y, r)
    requires f.span[x].Proper() && f.span[y].Proper()
    requires f.span[x].Overlaps(f.span[y])
    ensures AtOrBelow(f, x, y) || AtOrBelow(f, y, x)
  {
    if n > 0 {
      var p := f.up[x];
      OverlapMeansAncestry(f, p, n - 1, y, r);
      if AtOrBelow(f, p, y) {
        AtOrBelowStep(f, x, y);
      } else {
        var k: nat :| Reaches(f, y, k, p);
        if k == 0 {
          AtOrBelowSelf(f, p);
        } else {
          var d := ChildOnPath(f, y, k, p);
          AtOrBelowSpan(f, y, d);
          assert d == x || !f.span[x].Overlaps(f.span[d]);
        }
      }
    }
  }

  /** Two resources of one tree never overlap partly. */
  lemma NoPartialOverlapInTree<Id>(f: Forest<Id>, x: Id, y: Id, r: Id)
    requires WellFormed(f) && x in f.span && y in f.span
    requires AtOrBelow(f, x, r) && AtOrBelow(f, y, r)
    requires f.span[x].Proper() && f.span[y].Proper()
    ensures !f.span[x].PartlyOverlaps(f.span[y])
  {
    if f.span[x].Overlaps(f.span[y]) {
      var n: nat :| Reaches(f, x, n, r);
      OverlapMeansAncestry(f, x, n, y, r);
      if AtOrBelow(f, x, y) {
        AtOrBelowSpan(f, x, y);
      } else {
        AtOrBelowSpan(f, y, x);
      }
    }
  }

  // ---------------------------------------------------------------- updates

  /** In the forest, but with neither parent nor children. */
  ghost predicate Loose<Id>(f: Forest<Id>, x: Id) {
    x in f.span && x !in f.up && forall c | c in f.up :: f.up[c] != x
  }

  /** Hang `x` under `p`, next to the children `p` already has. */
  ghost function Attach<Id>(f: Forest<Id>, p: Id, x: Id): Forest<Id> {
    f.(up := f.up[x := p])
  }

  ghost function Detach<Id>(f: Forest<Id>, x: Id): Forest<Id> {
    f.(up := f.up - {x})
  }

  /** Hang `x` under `p` and move below it every child of `p` that it covers. */
  ghost function Adopt<Id>(f: Forest<Id>, p: Id, x: Id): Forest<Id>
    requires Closed(f) && x in f.span
  {
    f.(up := map c | c in f.up.Keys + {x} ::
         if c == x then p
         else if f.up[c] == p && f.span[x].Contains(f.span[c]) then x
         else f.up[c])
  }

  ghost function Respan<Id>(f: Forest<Id>, x: Id, s: Span): Forest<Id> {
    f.(span := f.span[x := s])
  }

  /** The range `s` can be given to `x`, a child of its parent or a top resource, without moving anything else. */
  ghost predicate Room<Id>(f: Forest<Id>, x: Id, s: Span)
    requires Closed(f)
  {
    && s.Proper()
    && (x in f.up ==> f.span[f.up[x]].Contains(s)
                      && forall c | ChildOf(f, c, f.up[x]) && c != x :: !f.span[c].Overlaps(s))
    && forall c | ChildOf(f, c, x) :: s.Contains(f.span[c])
  }

  /** `c` is the lowest child of `root` that overlaps `s`. */
  ghost predicate Blocks<Id>(f: Forest<Id>, root: Id, s: Span, c: Id)
    requires Closed(f)
  {
    && ChildOf(f, c, root) && f.span[c].Overlaps(s)
    && forall d | ChildOf(f, d, root) && f.span[d].Overlaps(s) :: f.span[c].lo <= f.span[d].lo
  }

  ghost predicate CanHold<Id>(f: Forest<Id>, root: Id, s: Span)
    requires Closed(f) && root in f.span
  {
    s.Proper() && f.span[root].Contains(s) && forall d | ChildOf(f, d, root) :: !f.span[d].Overlaps(s)
  }

  /** Adds `x` to the forest as a resource without parent or children. */
  ghost function AddLoose<Id>(f: Forest<Id>, x: Id, s: Span, busy: bool): Forest<Id> {
    Forest(f.span[x := s], f.up, if busy then f.busy + {x} else f.busy)
  }

  ghost function WithNew<Id>(g: Forest<Id>, root: Id, x: Id, s: Span): Forest<Id> {
    Attach(AddLoose(g, x, s, true), root, x)
  }

  lemma AdoptWithoutChildren<Id>(f: Forest<Id>, p: Id, x: Id)
    requires WellFormed(f) && Loose(f, x) && f.span[x].Proper()
    requires forall c | ChildOf(f, c, p) :: !f.span[c].Overlaps(f.span[x])
    ensures Adopt(f, p, x) == Attach(f, p, x)
  {
    assert Adopt(f, p, x).up == Attach(f, p, x).up;
  }

  ghost predicate Welcomes<Id>(f: Forest<Id>, p: Id, x: Id)
    requires Closed(f)
  {
    && Loose(f, x) && p in f.span && p != x
    && f.span[x].Proper() && f.span[p].Contains(f.span[x])
    && forall c | ChildOf(f, c, p) && f.span[c].Overlaps(f.span[x]) :: f.span[x].Contains(f.span[c])
  }

  lemma AdoptKeepsSiblingsDisjoint<Id>(f: Forest<Id>, p: Id, x: Id)
    requires WellFormed(f) && Welcomes(f, p, x)
    ensures Closed(Adopt(f, p, x)) && Nested(Adopt(f, p, x)) && SiblingsDisjoint(Adopt(f, p, x))
  {
    var g := Adopt(f, p, x);
    forall c, d | c in g.up && d in g.up && c != d && g.up[c] == g.up[d]
      ensures !g.span[c].Overlaps(g.span[d])
    {
      if c == x {
        assert ChildOf(f, d, p);
      } else if d == x {
        assert ChildOf(f, c, p);
      } else {
        assert f.up[c] == f.up[d];
      }
    }
  }

  /** Doubling the ranks makes room for `x` between `p` and the children it takes over. */
  lemma AdoptKeepsRanked<Id>(f: Forest<Id>, rank: map<Id, nat>, p: Id, x: Id)
    requires Closed(f) && Loose(f, x) && p in f.span && p != x && Ranked(f, rank)
    ensures Ranked(Adopt(f, p, x), map y | y in f.span :: if y == x then 2 * rank[p] else 2 * rank[y] + 1)
  {
  }

  lemma AdoptKeepsWellFormed<Id>(f: Forest<Id>, p: Id, x: Id)
    requires WellFormed(f) && Welcomes(f, p, x)
    ensures WellFormed(Adopt(f, p, x))
  {
    AdoptKeepsSiblingsDisjoint(f, p, x);
    var rank :| Ranked(f, rank);
    AdoptKeepsRanked(f, rank, p, x);
  }

  lemma AddLooseWellFormed<Id>(f: Forest<Id>, x: Id, s: Span, busy: bool)
    requires WellFormed(f) && x !in f.span
    ensures WellFormed(AddLoose(f, x, s, busy)) && Loose(AddLoose(f, x, s, busy), x)
  {
    var g := AddLoose(f, x, s, busy);
    var rank :| Ranked(f, rank);
    assert Ranked(g, rank[x := 0]);
    forall c, d | c in g.up && d in g.up && c != d && g.up[c] == g.up[d] ensures !g.span[c].Overlaps(g.span[d]) {
      assert !f.span[c].Overlaps(f.span[d]);
    }
  }

  lemma DetachKeepsWellFormed<Id>(f: Forest<Id>, x: Id)
    requires WellFormed(f)
    ensures WellFormed(Detach(f, x))
  {
    var rank :| Ranked(f, rank);
    assert Ranked(Detach(f, x), rank);
  }

  lemma RespanWithRoom<Id>(f: Forest<Id>, x: Id, s: Span)
    requires WellFormed(f) && x in f.span && Room(f, x, s)
    ensures WellFormed(Respan(f, x, s))
  {
    var g := Respan(f, x, s);
    var rank :| Ranked(f, rank);
    assert Ranked(g, rank);
    assert Nested(g) by {
      forall c | c in g.up ensures g.span[c].Proper() && g.span[g.up[c]].Contains(g.span[c]) {
        assert rank[c] < rank[f.up[c]];
        assert ChildOf(f, c, f.up[c]);
      }
    }
    assert SiblingsDisjoint(g) by {
      forall c, d | c in g.up && d in g.up && c != d && g.up[c] == g.up[d]
        ensures !g.span[c].Overlaps(g.span[d])
      {
        assert ChildOf(f, c, f.up[d]) && ChildOf(f, d, f.up[c]);
      }
    }
  }

  lemma RespanNeedsRoom<Id>(f: Forest<Id>, x: Id, s: Span)
    requires WellFormed(f) && x in f.span && s.Proper() && WellFormed(Respan(f, x, s))
    ensures Room(f, x, s)
  {
    var g := Respan(f, x, s);
    var rank :| Ranked(f, rank);
    forall c | ChildOf(f, c, x) ensures s.Contains(f.span[c]) {
      assert rank[c] < rank[x];
      assert c in g.up && g.up[c] == x;
    }
    if x in f.up {
      assert rank[x] < rank[f.up[x]];
      forall c | ChildOf(f, c, f.up[x]) && c != x ensures !f.span[c].Overlaps(s) {
        assert c in g.up && g.up[c] == g.up[x];
      }
    }
  }

  /** Changing the range of `x` keeps the tree well formed exactly when there is room for the new range. */
  lemma RespanKeepsWellFormed<Id>(f: Forest<Id>, x: Id, s: Span)
    requires WellFormed(f) && x in f.span && s.Proper()
    ensures WellFormed(Respan(f, x, s)) <==> Room(f, x, s)
  {
    if Room(f, x, s) {
      RespanWithRoom(f, x, s);
    }
    if WellFormed(Respan(f, x, s)) {
      RespanNeedsRoom(f, x, s);
    }
  }

  // -------------------------------------------------- insertion by adoption

  /**
    The place for a new range `s` below `root`: the deepest resource that encloses it.
    `root` itself may have the same range as `s`; below it a resource of the same range is
    not entered, because it becomes a child of the new one.
   */
  ghost predicate Home<Id>(f: Forest<Id>, root: Id, s: Span, p: Id)
    requires Closed(f)
  {
    && p in f.span && AtOrBelow(f, p, root)
    && f.span[p].Contains(s)
    && (p == root || f.span[p].Encloses(s))
    && forall c | ChildOf(f, c, p) :: !f.span[c].Encloses(s)
  }

  ghost predicate ClearOf<Id>(f: Forest<Id>, root: Id, s: Span) {
    forall x | x in f.span && AtOrBelow(f, x, root) :: !f.span[x].PartlyOverlaps(s)
  }

  lemma HomeIsUnique<Id>(f: Forest<Id>, root: Id, s: Span, p: Id, q: Id)
    requires WellFormed(f) && s.Proper()
    requires Home(f, root, s, p) && Home(f, root, s, q)
    ensures p == q
  {
    var n: nat :| Reaches(f, p, n, root);
    OverlapMeansAncestry(f, p, n, q, root);
    if AtOrBelow(f, p, q) {
      HomeNotBelowHome(f, root, s, p, q);
    } else {
      HomeNotBelowHome(f, root, s, q, p);
    }
  }

  lemma HomeNotBelowHome<Id>(f: Forest<Id>, root: Id, s: Span, p: Id, q: Id)
    requires WellFormed(f) && s.Proper()
    requires Home(f, root, s, p) && Home(f, root, s, q) && AtOrBelow(f, p, q)
    ensures p == q
  {
    if p != q {
      var n: nat :| Reaches(f, p, n, q);
      var d := ChildOnPath(f, p, n, q);
      AtOrBelowSpan(f, p, d);
      assert p == root;
      AtOrBelowStep(f, p, q);
      AtOrBelowTrans(f, f.up[p], q, root);
      NotBelowSelf(f, root);
    }
  }

  /**
    Whether `s` can be inserted is decided among the children of its home alone:
    they are all either clear of `s` or covered by it if and only if no resource
    anywhere in the tree overlaps `s` partly.
   */
  lemma HomeDecides<Id>(f: Forest<Id>, root: Id, s: Span, p: Id)
    requires WellFormed(f) && s.Proper() && Home(f, root, s, p)
    ensures ClearOf(f, root, s) <==>
            forall c | ChildOf(f, c, p) && f.span[c].Overlaps(s) :: s.Contains(f.span[c])
  {
    if forall c | ChildOf(f, c, p) && f.span[c].Overlaps(s) :: s.Contains(f.span[c]) {
      forall x | x in f.span && AtOrBelow(f, x, root) ensures !f.span[x].PartlyOverlaps(s) {
        if f.span[x].PartlyOverlaps(s) {
          AtOrBelowSpan(f, p, root);
          AtOrBelowStep(f, x, root);
          var n: nat :| Reaches(f, x, n, root);
          OverlapMeansAncestry(f, x, n, p, root);
          if AtOrBelow(f, p, x) {
            AtOrBelowSpan(f, p, x);
          } else {
            var k: nat :| Reaches(f, x, k, p);
            var d := ChildOnPath(f, x, k, p);
            AtOrBelowSpan(f, x, d);
          }
        }
      }
    }
    if ClearOf(f, root, s) {
      forall c | ChildOf(f, c, p) && f.span[c].Overlaps(s) ensures s.Contains(f.span[c]) {
        AtOrBelowStep(f, c, root);
      }
    }
  }

  lemma {:induction false} AdoptKeepsReach<Id>(f: Forest<Id>, p: Id, x: Id, c: Id, n: nat, a: Id)
    requires Closed(f) && Loose(f, x) && c != x && a != x
    requires Reaches(f, c, n, a)
    ensures AtOrBelow(Adopt(f, p, x), c, a)
  {
    var g := Adopt(f, p, x);
    AtOrBelowStep(g, c, a);
    if n > 0 {
      AdoptKeepsReach(f, p, x, f.up[c], n - 1, a);
      if g.up[c] == x {
        AtOrBelowStep(g, x, a);
      }
    }
  }

  lemma {:induction false} AdoptAddsNoReach<Id>(f: Forest<Id>, p: Id, x: Id, c: Id, n: nat, a: Id)
    requires Closed(f) && Loose(f, x) && p != x && c != x && a != x
    requires Reaches(Adopt(f, p, x), c, n, a)
    ensures AtOrBelow(f, c, a)
  {
    var g := Adopt(f, p, x);
    AtOrBelowStep(f, c, a);
    if n > 0 {
      if g.up[c] == x {
        assert n > 1 && g.up[x] == p && Reaches(g, p, n - 2, a);
        AdoptAddsNoReach(f, p, x, p, n - 2, a);
      } else {
        AdoptAddsNoReach(f, p, x, g.up[c], n - 1, a);
      }
    }
  }

  lemma {:induction false} AdoptReachesNew<Id>(f: Forest<Id>, p: Id, x: Id, c: Id, n: nat) returns (d: Id)
    requires Closed(f) && Loose(f, x) && p != x && c != x
    requires Reaches(Adopt(f, p, x), c, n, x) && !AtOrBelow(Adopt(f, p, x), p, x)
    ensures ChildOf(f, d, p) && f.span[x].Contains(f.span[d]) && AtOrBelow(f, c, d)
  {
    var g := Adopt(f, p, x);
    if g.up[c] == x {
      d := c;
      AtOrBelowSelf(f, c);
    } else {
      d := AdoptReachesNew(f, p, x, g.up[c], n - 1);
      AtOrBelowStep(f, c, d);
    }
  }

  /**
    Adoption changes no ancestor relation between the old resources; above the new one
    are its home and what is above that, below it exactly the subtrees of the children it covers.
   */
  lemma AdoptAncestry<Id>(f: Forest<Id>, p: Id, x: Id)
    requires WellFormed(f) && Welcomes(f, p, x)
    ensures forall c, a | c in f.span && a in f.span && c != x && a != x ::
              AtOrBelow(Adopt(f, p, x), c, a) <==> AtOrBelow(f, c, a)
    ensures forall a | a in f.span && a != x :: AtOrBelow(Adopt(f, p, x), x, a) <==> AtOrBelow(f, p, a)
    ensures forall c | c in f.span && c != x ::
              AtOrBelow(Adopt(f, p, x), c, x) <==>
              exists d :: ChildOf(f, d, p) && f.span[x].Contains(f.span[d]) && AtOrBelow(f, c, d)
  {
    forall c, a | c in f.span && a in f.span && c != x && a != x
      ensures AtOrBelow(Adopt(f, p, x), c, a) <==> AtOrBelow(f, c, a)
    {
      AdoptAncestryOld(f, p, x, c, a);
    }
    forall a | a in f.span && a != x ensures AtOrBelow(Adopt(f, p, x), x, a) <==> AtOrBelow(f, p, a) {
      AtOrBelowStep(Adopt(f, p, x), x, a);
      AdoptAncestryOld(f, p, x, p, a);
    }
    forall c | c in f.span && c != x
      ensures AtOrBelow(Adopt(f, p, x), c, x) <==>
              exists d :: ChildOf(f, d, p) && f.span[x].Contains(f.span[d]) && AtOrBelow(f, c, d)
    {
      AdoptAncestryNew(f, p, x, c);
    }
  }

  lemma AdoptAncestryNew<Id>(f: Forest<Id>, p: Id, x: Id, c: Id)
    requires WellFormed(f) && Welcomes(f, p, x) && c in f.span && c != x
    ensures AtOrBelow(Adopt(f, p, x), c, x) <==>
            exists d :: ChildOf(f, d, p) && f.span[x].Contains(f.span[d]) && AtOrBelow(f, c, d)
  {
    var g := Adopt(f, p, x);
    if AtOrBelow(g, c, x) {
      assert !AtOrBelow(g, p, x) by {
        AdoptKeepsWellFormed(f, p, x);
        NotBelowSelf(g, x);
      }
      var n: nat :| Reaches(g, c, n, x);
      var d := AdoptReachesNew(f, p, x, c, n);
    }
    if d :| ChildOf(f, d, p) && f.span[x].Contains(f.span[d]) && AtOrBelow(f, c, d) {
      AdoptAncestryOld(f, p, x, c, d);
      AtOrBelowSelf(g, x);
      AtOrBelowStep(g, d, x);
      AtOrBelowTrans(g, c, d, x);
    }
  }

  lemma AdoptAncestryOld<Id>(f: Forest<Id>, p: Id, x: Id, c: Id, a: Id)
    requires Closed(f) && Loose(f, x) && p != x && c != x && a != x
    ensures AtOrBelow(Adopt(f, p, x), c, a) <==> AtOrBelow(f, c, a)
  {
    if AtOrBelow(f, c, a) {
      var n: nat :| Reaches(f, c, n, a);
      AdoptKeepsReach(f, p, x, c, n, a);
    }
    if AtOrBelow(Adopt(f, p, x), c, a) {
      var n: nat :| Reaches(Adopt(f, p, x), c, n, a);
      AdoptAddsNoReach(f, p, x, c, n, a);
    }
  }

  // ------------------------------------------------------- expanding to fit

  /** A range around `base` that could be inserted below `root`. */
  ghost predicate Fit<Id>(f: Forest<Id>, root: Id, base: Span, s: Span)
    requires root in f.span
  {
    f.span[root].Contains(s) && s.Contains(base) && ClearOf(f, root, s)
  }

  /** Growing over a conflict loses no candidate: every fitting range already covers the conflict. */
  lemma ConflictInsideEveryFit<Id>(f: Forest<Id>, root: Id, s: Span, x: Id, t: Span)
    requires WellFormed(f) && root in f.span && x in f.span && AtOrBelow(f, x, root)
    requires f.span[x].PartlyOverlaps(s) && Fit(f, root, s, t)
    ensures Fit(f, root, s.Join(f.span[x]), t)
  {
  }

  lemma RootFits<Id>(f: Forest<Id>, root: Id, s: Span)
    requires WellFormed(f) && root in f.span && f.span[root].Contains(s) && s.Proper()
    ensures Fit(f, root, s, f.span[root])
  {
    forall x | x in f.span && AtOrBelow(f, x, root) ensures !f.span[x].PartlyOverlaps(f.span[root]) {
      AtOrBelowSpan(f, x, root);
    }
  }
}
