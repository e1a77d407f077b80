/**
  BUSY regions: which ranges `RequestRegion` grants, and why granted regions stay apart
  over every run of the operations on the tree.
 */
module ResourceBusy {
  import opened ResourceForest

  /** What lies below `p` and meets `s` encloses all of `s` and is not BUSY. */
  ghost predicate Open<Id>(f: Forest<Id>, p: Id, s: Span) {
    forall r | r in f.span && Below(f, r, p) && f.span[r].Overlaps(s) :: f.span[r].Contains(s) && r !in f.busy
  }

  ghost predicate Grantable<Id>(f: Forest<Id>, p: Id, s: Span)
    requires p in f.span
  {
    s.Proper() && f.span[p].Contains(s) && Open(f, p, s)
  }

  /** `s` is free directly below `q`, and nothing BUSY lies on the way from `p` down to `q`. */
  ghost predicate GrantedAt<Id>(f: Forest<Id>, p: Id, s: Span, q: Id)
    requires Closed(f)
  {
    && q in f.span && AtOrBelow(f, q, p) && CanHold(f, q, s)
    && forall r | r in f.span && Below(f, r, p) && AtOrBelow(f, q, r) :: r !in f.busy
  }

  /** Where nothing below `p` is in the way, `s` can be granted at `p` itself. */
  lemma OpenAtTop<Id>(f: Forest<Id>, p: Id, s: Span)
    requires WellFormed(f) && p in f.span && CanHold(f, p, s)
    ensures Grantable(f, p, s) && GrantedAt(f, p, s, p)
  {
    AtOrBelowSelf(f, p);
    forall r | r in f.span && Below(f, r, p) ensures !f.span[r].Overlaps(s) && !AtOrBelow(f, p, r) {
      AtOrBelowStep(f, r, p);
      BelowReaches(f, r, p);
      var n: nat :| Reaches(f, r, n, p) && n > 0;
      var d := ChildOnPath(f, r, n, p);
      AtOrBelowSpan(f, r, d);
      if AtOrBelow(f, p, r) {
        AtOrBelowTrans(f, f.up[r], p, r);
        NotBelowSelf(f, r);
      }
    }
  }

  lemma BelowReaches<Id>(f: Forest<Id>, c: Id, a: Id)
    requires Below(f, c, a)
    ensures exists n: nat :: Reaches(f, c, n, a) && n > 0
  {
    var n: nat :| Reaches(f, f.up[c], n, a);
    assert Reaches(f, c, n + 1, a);
  }

  /** If a child of `p` meets `s`, all depends on that child and on what lies below it. */
  lemma OpenThrough<Id>(f: Forest<Id>, p: Id, s: Span, c: Id)
    requires WellFormed(f) && p in f.span && s.Proper() && ChildOf(f, c, p) && f.span[c].Overlaps(s) && f.span[p].Contains(s)
    ensures Grantable(f, p, s) <==> c !in f.busy && Grantable(f, c, s)
  {
    AtOrBelowSelf(f, p);
    assert Below(f, c, p);
    if c !in f.busy && Grantable(f, c, s) {
      forall r | r in f.span && Below(f, r, p) && f.span[r].Overlaps(s) ensures f.span[r].Contains(s) && r !in f.busy {
        BelowReaches(f, r, p);
        var n: nat :| Reaches(f, r, n, p) && n > 0;
        var d := ChildOnPath(f, r, n, p);
        AtOrBelowSpan(f, r, d);
        assert d == c || !f.span[c].Overlaps(f.span[d]);
        AtOrBelowStep(f, r, c);
      }
    }
    AtOrBelowStep(f, c, p);
    if Open(f, p, s) {
      forall r | r in f.span && Below(f, r, c) && f.span[r].Overlaps(s) ensures f.span[r].Contains(s) && r !in f.busy {
        BelowTrans(f, r, c, p);
      }
    }
  }

  lemma BelowTrans<Id>(f: Forest<Id>, r: Id, c: Id, p: Id)
    requires Below(f, r, c) && AtOrBelow(f, c, p)
    ensures Below(f, r, p)
  {
    AtOrBelowTrans(f, f.up[r], c, p);
  }

  /** A place below the non-BUSY child `c` of `p` is a place below `p`. */
  lemma GrantedThrough<Id>(f: Forest<Id>, p: Id, s: Span, c: Id, q: Id)
    requires WellFormed(f) && s.Proper() && ChildOf(f, c, p) && c !in f.busy && GrantedAt(f, c, s, q)
    ensures GrantedAt(f, p, s, q)
  {
    AtOrBelowSelf(f, p);
    AtOrBelowStep(f, c, p);
    AtOrBelowTrans(f, q, c, p);
    forall r | r in f.span && Below(f, r, p) && AtOrBelow(f, q, r) ensures r !in f.busy {
      BelowReaches(f, r, p);
      var n: nat :| Reaches(f, r, n, p) && n > 0;
      var d := ChildOnPath(f, r, n, p);
      AtOrBelowTrans(f, q, r, d);
      AtOrBelowSpan(f, q, d);
      AtOrBelowSpan(f, q, c);
      assert d == c || !f.span[c].Overlaps(f.span[d]);
      AtOrBelowStep(f, r, c);
    }
  }

  /** A granted range meets a BUSY resource of the tree exactly if the request began at or below one. */
  lemma GrantMeetsBusy<Id>(f: Forest<Id>, root: Id, p: Id, s: Span)
    requires WellFormed(f) && p in f.span && AtOrBelow(f, p, root) && Grantable(f, p, s)
    ensures (exists b | b in f.busy && b in f.span && AtOrBelow(f, b, root) :: f.span[b].Proper() && f.span[b].Overlaps(s))
            <==> exists b | b in f.busy && b in f.span && AtOrBelow(f, b, root) :: f.span[b].Proper() && AtOrBelow(f, p, b)
  {
    if b :| b in f.busy && b in f.span && AtOrBelow(f, b, root) && f.span[b].Proper() && f.span[b].Overlaps(s) {
      var n: nat :| Reaches(f, p, n, root);
      OverlapMeansAncestry(f, p, n, b, root);
      AtOrBelowStep(f, b, p);
      assert AtOrBelow(f, p, b) by { AtOrBelowStep(f, p, b); }
    }
    if b :| b in f.busy && b in f.span && AtOrBelow(f, b, root) && f.span[b].Proper() && AtOrBelow(f, p, b) {
      AtOrBelowSpan(f, p, b);
      assert f.span[b].Overlaps(s);
    }
  }

  // -------------------------------------------------------------------- runs

  /** The forest together with the regions that were granted and not yet given back. */
  datatype Regions<Id> = Regions(f: Forest<Id>, granted: set<Id>)

  datatype Op<Id> =
    | New(x: Id, s: Span, busy: bool)
    | Request(p: Id, x: Id)
    | Insert(root: Id, p: Id, x: Id)
    | Release(x: Id)
    | Resize(x: Id, s: Span)
    | Grant(p: Id, q: Id, x: Id, s: Span)
    | Free(x: Id)

  /** The forest without `x`. */
  ghost function Drop<Id>(f: Forest<Id>, x: Id): Forest<Id> {
    Forest(f.span - {x}, f.up - {x}, f.busy - {x})
  }

  ghost predicate Childless<Id>(f: Forest<Id>, x: Id) {
    forall c | c in f.up :: f.up[c] != x
  }

  /** One call of an operation: its guard and its effect on the forest. */
  ghost predicate Moves<Id>(f: Forest<Id>, op: Op<Id>, g: Forest<Id>) {
    WellFormed(f) &&
    match op
    case New(x, s, busy) =>
      x !in f.span && g == AddLoose(f, x, s, busy)
    case Request(p, x) =>
      Loose(f, x) && p in f.span && p != x && CanHold(f, p, f.span[x]) && g == Attach(f, p, x)
    case Insert(root, p, x) =>
      && Loose(f, x) && x != root && root in f.span && f.span[x].Proper()
      && Home(f, root, f.span[x], p) && ClearOf(f, root, f.span[x]) && g == Adopt(f, p, x)
    case Release(x) =>
      x in f.up && g == Detach(f, x)
    case Resize(x, s) =>
      x in f.span && (Loose(f, x) || Room(f, x, s)) && g == Respan(f, x, s)
    case Grant(p, q, x, s) =>
      x !in f.span && p in f.span && Grantable(f, p, s) && GrantedAt(f, p, s, q) && g == WithNew(f, q, x, s)
    case Free(x) =>
      x in f.up && Childless(f, x) && x in f.busy && g == Drop(f, x)
  }

  /** The granted regions after the call. */
  ghost function After<Id>(granted: set<Id>, op: Op<Id>): set<Id> {
    match op
    case Grant(_, _, x, _) => granted + {x}
    case Release(x) => granted - {x}
    case Free(x) => granted - {x}
    case _ => granted
  }

  ghost predicate Step<Id>(a: Regions<Id>, op: Op<Id>, b: Regions<Id>) {
    Moves(a.f, op, b.f) && b.granted == After(a.granted, op)
  }

  ghost predicate Apart<Id>(f: Forest<Id>, granted: set<Id>) {
    forall x, y {:trigger AtOrBelow(f, x, y)} | x in granted && y in granted && x != y :: !AtOrBelow(f, x, y)
  }

  ghost predicate Inv<Id>(a: Regions<Id>) {
    && WellFormed(a.f)
    && a.granted <= a.f.up.Keys && a.granted <= a.f.busy
    && Apart(a.f, a.granted)
  }

  /** No granted region lies at `p` or around it. */
  ghost predicate FreeAbove<Id>(a: Regions<Id>, p: Id) {
    forall y | y in a.granted :: !AtOrBelow(a.f, p, y)
  }

  ghost predicate Disciplined<Id>(a: Regions<Id>, op: Op<Id>) {
    op.Grant? ==> FreeAbove(a, op.p)
  }

  lemma {:induction false} FewerLinksReachLess<Id>(f: Forest<Id>, g: Forest<Id>, c: Id, n: nat, a: Id)
    requires forall d | d in g.up :: d in f.up && f.up[d] == g.up[d]
    requires Reaches(g, c, n, a)
    ensures Reaches(f, c, n, a)
  {
    if n > 0 {
      FewerLinksReachLess(f, g, g.up[c], n - 1, a);
    }
  }

  lemma FewerLinksStayApart<Id>(f: Forest<Id>, g: Forest<Id>, granted: set<Id>, less: set<Id>)
    requires forall d | d in g.up :: d in f.up && f.up[d] == g.up[d]
    requires Apart(f, granted) && less <= granted
    ensures Apart(g, less)
  {
    forall x, y | x in less && y in less && x != y ensures !AtOrBelow(g, x, y) {
      if AtOrBelow(g, x, y) {
        var n: nat :| Reaches(g, x, n, y);
        FewerLinksReachLess(f, g, x, n, y);
        assert AtOrBelow(f, x, y);
      }
    }
  }

  lemma AdoptStaysApart<Id>(f: Forest<Id>, p: Id, x: Id, granted: set<Id>)
    requires Closed(f) && Loose(f, x) && p != x && x !in granted && Apart(f, granted)
    ensures Apart(Adopt(f, p, x), granted)
  {
    forall c, a | c in granted && a in granted && c != a ensures !AtOrBelow(Adopt(f, p, x), c, a) {
      AdoptAncestryOld(f, p, x, c, a);
      assert !AtOrBelow(f, c, a);
    }
  }

  lemma AttachIsFine<Id>(f: Forest<Id>, p: Id, x: Id, granted: set<Id>)
    requires WellFormed(f) && Loose(f, x) && p in f.span && p != x && CanHold(f, p, f.span[x])
    requires x !in granted && Apart(f, granted)
    ensures WellFormed(Attach(f, p, x)) && Apart(Attach(f, p, x), granted) && Attach(f, p, x) == Adopt(f, p, x)
  {
    AdoptWithoutChildren(f, p, x);
    AdoptKeepsWellFormed(f, p, x);
    AdoptStaysApart(f, p, x, granted);
  }

  lemma InsertIsWelcome<Id>(f: Forest<Id>, root: Id, p: Id, x: Id)
    requires WellFormed(f) && Loose(f, x) && x != root && root in f.span && f.span[x].Proper()
    requires Home(f, root, f.span[x], p) && ClearOf(f, root, f.span[x])
    ensures Welcomes(f, p, x)
  {
    HomeDecides(f, root, f.span[x], p);
    AtOrBelowStep(f, x, root);
  }

  lemma LooseResize<Id>(f: Forest<Id>, x: Id, s: Span)
    requires WellFormed(f) && Loose(f, x)
    ensures WellFormed(Respan(f, x, s))
  {
    var rank :| Ranked(f, rank);
    assert Ranked(Respan(f, x, s), rank);
    forall c, d | c in f.up && d in f.up && c != d && f.up[c] == f.up[d]
      ensures !Respan(f, x, s).span[c].Overlaps(Respan(f, x, s).span[d])
    {
      assert !f.span[c].Overlaps(f.span[d]);
    }
  }

  lemma DropKeepsWellFormed<Id>(f: Forest<Id>, x: Id)
    requires WellFormed(f) && Childless(f, x)
    ensures WellFormed(Drop(f, x))
  {
    var g := Drop(f, x);
    var rank :| Ranked(f, rank);
    assert Ranked(g, rank - {x});
    forall c, d | c in g.up && d in g.up && c != d && g.up[c] == g.up[d] ensures !g.span[c].Overlaps(g.span[d]) {
      assert !f.span[c].Overlaps(f.span[d]);
    }
  }

  /** With children the tree is broken: they would point to a resource that is gone. */
  lemma DropNeedsChildless<Id>(f: Forest<Id>, x: Id)
    requires WellFormed(f) && x in f.span
    ensures WellFormed(Drop(f, x)) <==> Childless(f, x)
  {
    if Childless(f, x) {
      DropKeepsWellFormed(f, x);
    }
    if WellFormed(Drop(f, x)) {
      var rank :| Ranked(f, rank);
      forall c | c in f.up ensures f.up[c] != x {
        assert rank[c] < rank[f.up[c]];
        assert c != x ==> c in Drop(f, x).up;
      }
    }
  }

  lemma {:induction false} ReachesFromNew<Id>(f: Forest<Id>, q: Id, x: Id, s: Span, c: Id, n: nat, a: Id)
    requires Closed(f) && x !in f.span && c in f.span
    requires Reaches(WithNew(f, q, x, s), c, n, a)
    ensures a != x && Reaches(f, c, n, a)
  {
    if n > 0 {
      ReachesFromNew(f, q, x, s, f.up[c], n - 1, a);
    }
  }

  lemma {:induction false} ReachesInNew<Id>(f: Forest<Id>, q: Id, x: Id, s: Span, c: Id, n: nat, a: Id)
    requires Closed(f) && x !in f.span && c in f.span && Reaches(f, c, n, a)
    ensures Reaches(WithNew(f, q, x, s), c, n, a)
  {
    if n > 0 {
      ReachesInNew(f, q, x, s, f.up[c], n - 1, a);
    }
  }

  /** Putting in `x` below `q` leaves the relation between the others alone, and puts `x` below what `q` is below. */
  lemma NewAncestry<Id>(f: Forest<Id>, q: Id, x: Id, s: Span, c: Id, a: Id)
    requires Closed(f) && x !in f.span && q in f.span && c in f.span && a in f.span
    ensures AtOrBelow(WithNew(f, q, x, s), c, a) <==> AtOrBelow(f, c, a)
    ensures AtOrBelow(WithNew(f, q, x, s), x, a) <==> AtOrBelow(f, q, a)
    ensures !AtOrBelow(WithNew(f, q, x, s), c, x)
  {
    var g := WithNew(f, q, x, s);
    NewAncestryOld(f, q, x, s, c, a);
    NewAncestryOld(f, q, x, s, q, a);
    AtOrBelowStep(g, x, a);
    if AtOrBelow(g, c, x) {
      var n: nat :| Reaches(g, c, n, x);
      ReachesFromNew(f, q, x, s, c, n, x);
    }
  }

  lemma NewAncestryOld<Id>(f: Forest<Id>, q: Id, x: Id, s: Span, c: Id, a: Id)
    requires Closed(f) && x !in f.span && c in f.span
    ensures a in f.span ==> (AtOrBelow(WithNew(f, q, x, s), c, a) <==> AtOrBelow(f, c, a))
  {
    var g := WithNew(f, q, x, s);
    if AtOrBelow(g, c, a) {
      var n: nat :| Reaches(g, c, n, a);
      ReachesFromNew(f, q, x, s, c, n, a);
    }
    if AtOrBelow(f, c, a) {
      var n: nat :| Reaches(f, c, n, a);
      ReachesInNew(f, q, x, s, c, n, a);
    }
  }

  lemma NewIsWellFormed<Id>(f: Forest<Id>, q: Id, x: Id, s: Span)
    requires WellFormed(f) && q in f.span && x !in f.span && CanHold(f, q, s)
    ensures WellFormed(WithNew(f, q, x, s))
  {
    AddLooseWellFormed(f, x, s, true);
    var g := AddLoose(f, x, s, true);
    forall c | ChildOf(g, c, q) ensures !g.span[c].Overlaps(g.span[x]) {
      assert ChildOf(f, c, q);
    }
    AdoptWithoutChildren(g, q, x);
    AdoptKeepsWellFormed(g, q, x);
  }

  /**
    A grant keeps the granted regions apart exactly if none of them lies at or around the resource
    the request began at.
   */
  lemma GrantKeepsApart<Id>(a: Regions<Id>, p: Id, q: Id, x: Id, s: Span, b: Regions<Id>)
    requires Inv(a) && Step(a, Grant(p, q, x, s), b)
    ensures Inv(b) <==> FreeAbove(a, p)
  {
    NewIsWellFormed(a.f, q, x, s);
    forall y | y in a.granted ensures AtOrBelow(b.f, x, y) <==> AtOrBelow(a.f, p, y) {
      NewAncestry(a.f, q, x, s, q, y);
      GrantAncestor(a.f, p, q, s, y);
    }
    if FreeAbove(a, p) {
      forall c, d | c in b.granted && d in b.granted && c != d ensures !AtOrBelow(b.f, c, d) {
        if c != x && d != x {
          NewAncestry(a.f, q, x, s, c, d);
          assert !AtOrBelow(a.f, c, d);
        } else if c != x {
          NewAncestry(a.f, q, x, s, c, c);
        }
      }
    }
    if Inv(b) {
      forall y | y in a.granted ensures !AtOrBelow(a.f, p, y) {
        assert !AtOrBelow(b.f, x, y);
      }
    }
  }

  /** A BUSY resource around `q` lies around `p`: there is none between the two. */
  lemma GrantAncestor<Id>(f: Forest<Id>, p: Id, q: Id, s: Span, y: Id)
    requires WellFormed(f) && p in f.span && GrantedAt(f, p, s, q) && y in f.up && y in f.busy && s.Proper()
    ensures AtOrBelow(f, q, y) <==> AtOrBelow(f, p, y)
  {
    if AtOrBelow(f, p, y) {
      AtOrBelowTrans(f, q, p, y);
    }
    if AtOrBelow(f, q, y) {
      var n: nat :| Reaches(f, q, n, y);
      var m: nat :| Reaches(f, q, m, p);
      CommonPath(f, q, n, y, m, p);
      if AtOrBelow(f, y, p) {
        AtOrBelowStep(f, y, p);
        AtOrBelowSelf(f, y);
      }
    }
  }

  /** Of two resources above `c`, one is above the other. */
  lemma {:induction false} CommonPath<Id>(f: Forest<Id>, c: Id, n: nat, a: Id, m: nat, b: Id)
    requires Reaches(f, c, n, a) && Reaches(f, c, m, b)
    ensures AtOrBelow(f, a, b) || AtOrBelow(f, b, a)
  {
    if n == 0 {
      assert AtOrBelow(f, a, b);
    } else if m == 0 {
      assert AtOrBelow(f, b, a);
    } else {
      CommonPath(f, f.up[c], n - 1, a, m - 1, b);
    }
  }

  /** Every operation keeps the invariant, a grant exactly if it is asked for outside the granted regions. */
  lemma StepKeepsInv<Id>(a: Regions<Id>, op: Op<Id>, b: Regions<Id>)
    requires Inv(a) && Step(a, op, b)
    ensures Inv(b) <==> Disciplined(a, op)
  {
    match op
    case New(x, s, busy) =>
      AddLooseWellFormed(a.f, x, s, busy);
      FewerLinksStayApart(a.f, b.f, a.granted, a.granted);
    case Request(p, x) =>
      AttachIsFine(a.f, p, x, a.granted);
    case Insert(root, p, x) =>
      InsertIsWelcome(a.f, root, p, x);
      AdoptKeepsWellFormed(a.f, p, x);
      AdoptStaysApart(a.f, p, x, a.granted);
    case Release(x) =>
      DetachKeepsWellFormed(a.f, x);
      FewerLinksStayApart(a.f, b.f, a.granted, b.granted);
    case Resize(x, s) =>
      if Loose(a.f, x) {
        LooseResize(a.f, x, s);
      } else {
        RespanWithRoom(a.f, x, s);
      }
      FewerLinksStayApart(a.f, b.f, a.granted, a.granted);
    case Grant(p, q, x, s) =>
      GrantKeepsApart(a, p, q, x, s, b);
    case Free(x) =>
      DropKeepsWellFormed(a.f, x);
      FewerLinksStayApart(a.f, b.f, a.granted, b.granted);
  }

  /** A change of range after which the tree is still well formed is a step: adjusting and moving are. */
  lemma ResizeIsStep<Id>(f: Forest<Id>, x: Id, s: Span)
    requires WellFormed(f) && x in f.span && s.Proper() && WellFormed(Respan(f, x, s))
    ensures Moves(f, Resize(x, s), Respan(f, x, s))
  {
    RespanKeepsWellFormed(f, x, s);
  }

  /** A run: consecutive states are steps, and every grant is asked for outside the granted regions. */
  ghost predicate Run<Id>(states: seq<Regions<Id>>, ops: seq<Op<Id>>) {
    && |states| == |ops| + 1 && Inv(states[0])
    && forall i | 0 <= i < |ops| :: Step(states[i], ops[i], states[i + 1]) && Disciplined(states[i], ops[i])
  }

  /** A sequence of calls and the forests between them. */
  ghost predicate Path<Id>(forests: seq<Forest<Id>>, ops: seq<Op<Id>>) {
    |forests| == |ops| + 1 && forall i | 0 <= i < |ops| :: Moves(forests[i], ops[i], forests[i + 1])
  }

  lemma PathGrows<Id>(forests: seq<Forest<Id>>, ops: seq<Op<Id>>, op: Op<Id>, g: Forest<Id>)
    requires Path(forests, ops) && Moves(forests[|ops|], op, g)
    ensures Path(forests + [g], ops + [op]) && (forests + [g])[0] == forests[0] && (forests + [g])[|ops| + 1] == g
    ensures |forests| == |ops| + 1
  {
    hide Moves;
    forall i | 0 <= i < |ops| + 1 ensures Moves((forests + [g])[i], (ops + [op])[i], (forests + [g])[i + 1]) {
      assert i < |ops| ==> Moves(forests[i], ops[i], forests[i + 1]);
    }
  }

  ghost predicate LeavesGrants<Id>(op: Op<Id>) {
    op.New? || op.Request? || op.Insert? || op.Resize?
  }

  /** Calls that grant and release nothing are a run, whatever has been granted before. */
  lemma PathIsRun<Id>(forests: seq<Forest<Id>>, ops: seq<Op<Id>>, granted: set<Id>) returns (states: seq<Regions<Id>>)
    requires Path(forests, ops) && (forall i | 0 <= i < |ops| :: LeavesGrants(ops[i])) && Inv(Regions(forests[0], granted))
    ensures Run(states, ops) && states[0].f == forests[0] && states[|ops|] == Regions(forests[|ops|], granted)
  {
    hide Moves, Inv;
    states := seq(|forests|, i requires 0 <= i < |forests| => Regions(forests[i], granted));
  }

  lemma {:induction false} RunKeepsInv<Id>(states: seq<Regions<Id>>, ops: seq<Op<Id>>, k: nat)
    requires Run(states, ops) && k < |states|
    ensures Inv(states[k])
  {
    hide Inv, Step, Disciplined;
    if k > 0 {
      RunKeepsInv(states, ops, k - 1);
      StepKeepsInv(states[k - 1], ops[k - 1], states[k]);
    }
  }

  /** At every point of every run, two granted regions of one tree have no address in common. */
  lemma GrantedRegionsAreDisjoint<Id>(states: seq<Regions<Id>>, ops: seq<Op<Id>>, k: nat, x: Id, y: Id, root: Id)
    requires Run(states, ops) && k < |states|
    requires x in states[k].granted && y in states[k].granted && x != y
    requires AtOrBelow(states[k].f, x, root) && AtOrBelow(states[k].f, y, root)
    ensures x in states[k].f.span && y in states[k].f.span
    ensures !states[k].f.span[x].Overlaps(states[k].f.span[y])
  {
    RunKeepsInv(states, ops, k);
    var f := states[k].f;
    assert !AtOrBelow(f, x, y) && !AtOrBelow(f, y, x);
    if f.span[x].Overlaps(f.span[y]) {
      var n: nat :| Reaches(f, x, n, root);
      OverlapMeansAncestry(f, x, n, y, root);
    }
  }

  const ONE_GRANTED: Forest<nat> := Forest(map[0 := Span(0, 9), 1 := Span(2, 5)], map[1 := 0], {1})

  lemma OneGranted()
    ensures Inv(Regions(ONE_GRANTED, {1})) && CanHold(ONE_GRANTED, 1, Span(3, 4))
  {
    assert Ranked(ONE_GRANTED, map[0 := 1, 1 := 0]);
  }

  /** A request that begins at a granted region is granted inside it: the discipline cannot be dropped. */
  lemma NestedGrantOverlaps() returns (a: Regions<nat>, b: Regions<nat>)
    ensures Inv(a) && 1 in a.granted && Step(a, Grant(1, 1, 2, Span(3, 4)), b)
    ensures {1, 2} <= b.granted && {1, 2} <= b.f.span.Keys && b.f.span[1].Overlaps(b.f.span[2]) && !Inv(b)
  {
    hide Nested, SiblingsDisjoint, Ranked, Apart, CanHold, Grantable, GrantedAt;
    OneGranted();
    var f := ONE_GRANTED;
    a, b := Regions(f, {1}), Regions(WithNew(f, 1, 2, Span(3, 4)), {1, 2});
    OpenAtTop(f, 1, Span(3, 4));
    assert a.granted + {2} == b.granted;
    AtOrBelowSelf(f, 1);
    assert !FreeAbove(a, 1);
    GrantKeepsApart(a, 1, 1, 2, Span(3, 4), b);
  }
}
