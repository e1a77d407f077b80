/**
  The child and sibling pointers that thread a resource tree, as values.
  A resource that is missing from one of the two maps holds a null pointer there.
 */
module ResourceLinks {
  import opened ResourceForest

  datatype Ptr<+Id> = Null | To(id: Id)

  datatype Links<Id> = Links(next: map<Id, Id>, first: map<Id, Id>)

  ghost function Get<Id>(m: map<Id, Id>, x: Id): Ptr<Id> {
    if x in m then To(m[x]) else Null
  }

  ghost function Put<Id>(m: map<Id, Id>, x: Id, p: Ptr<Id>): map<Id, Id> {
    match p
    case Null => m - {x}
    case To(y) => m[x := y]
  }

  /** The child pointer of `p` leads to the lowest child of `p`. */
  ghost predicate FirstChild<Id>(f: Forest<Id>, first: map<Id, Id>, p: Id)
    requires Closed(f)
  {
    if p !in first then
      forall c | c in f.up :: f.up[c] != p
    else
      ChildOf(f, first[p], p) && forall c | c in f.up && f.up[c] == p :: f.span[first[p]].lo <= f.span[c].lo
  }

  /** The sibling pointer of `c` leads to the next higher child of the parent of `c`. */
  ghost predicate NextSibling<Id>(f: Forest<Id>, next: map<Id, Id>, c: Id)
    requires Closed(f) && c in f.up
  {
    if c !in next then
      forall d | d in f.up && f.up[d] == f.up[c] :: f.span[d].lo <= f.span[c].lo
    else
      && ChildOf(f, next[c], f.up[c]) && f.span[c].lo < f.span[next[c]].lo
      && forall d | d in f.up && f.up[d] == f.up[c] ::
           f.span[d].lo <= f.span[c].lo || f.span[next[c]].lo <= f.span[d].lo
  }

  /** The pointers list the children of every resource in rising order. */
  ghost predicate Threaded<Id>(f: Forest<Id>, l: Links<Id>)
    requires Closed(f)
  {
    && (forall p {:trigger FirstChild(f, l.first, p)} | p in f.span :: FirstChild(f, l.first, p))
    && (forall c {:trigger NextSibling(f, l.next, c)} | c in f.up :: NextSibling(f, l.next, c))
  }

  /** `next` follows `prev` in the child list of `root`; a null `prev` stands for the head of the list. */
  ghost predicate Gap<Id>(f: Forest<Id>, l: Links<Id>, root: Id, prev: Ptr<Id>, next: Ptr<Id>) {
    match prev
    case Null => next == Get(l.first, root)
    case To(b) => ChildOf(f, b, root) && next == Get(l.next, b)
  }

  /** Every child of `root` starts at or before `prev`, or at or after `next`. */
  ghost predicate Adjacent<Id>(f: Forest<Id>, root: Id, prev: Ptr<Id>, next: Ptr<Id>)
    requires Closed(f)
  {
    && (prev.To? ==> ChildOf(f, prev.id, root))
    && (next.To? ==> ChildOf(f, next.id, root))
    && (forall c | c in f.up && f.up[c] == root ::
          (prev.To? && f.span[c].lo <= f.span[prev.id].lo) || (next.To? && f.span[next.id].lo <= f.span[c].lo))
  }

  lemma GapIsAdjacent<Id>(f: Forest<Id>, l: Links<Id>, root: Id, prev: Ptr<Id>, next: Ptr<Id>)
    requires Closed(f) && Threaded(f, l) && root in f.span && Gap(f, l, root, prev, next)
    ensures Adjacent(f, root, prev, next)
    ensures prev.To? && next.To? ==> f.span[prev.id].lo < f.span[next.id].lo
  {
    match prev
    case Null => assert FirstChild(f, l.first, root);
    case To(b) => assert NextSibling(f, l.next, b);
  }

  /** Below `prev` and above `next` there is no room for another child, so a range between them is free. */
  lemma GapIsFree<Id>(f: Forest<Id>, l: Links<Id>, root: Id, prev: Ptr<Id>, next: Ptr<Id>, s: Span)
    requires WellFormed(f) && Threaded(f, l) && root in f.span && Gap(f, l, root, prev, next) && s.Proper()
    requires prev.To? ==> f.span[prev.id].hi < s.lo
    requires next.To? ==> next.id in f.span && s.hi < f.span[next.id].lo
    ensures forall c | ChildOf(f, c, root) :: !f.span[c].Overlaps(s)
  {
    GapIsAdjacent(f, l, root, prev, next);
    forall c | ChildOf(f, c, root) ensures !f.span[c].Overlaps(s) {
      if prev.To? && f.span[c].lo <= f.span[prev.id].lo && c != prev.id {
        assert !f.span[c].Overlaps(f.span[prev.id]);
      }
    }
  }

  // ------------------------------------------------------------ linking in

  ghost function ThreadIn<Id>(l: Links<Id>, root: Id, prev: Ptr<Id>, next: Ptr<Id>, x: Id): Links<Id> {
    match prev
    case Null => Links(Put(l.next, x, next), l.first[root := x])
    case To(b) => Links(Put(l.next, x, next)[b := x], l.first)
  }

  ghost predicate CanThreadIn<Id>(f: Forest<Id>, l: Links<Id>, root: Id, prev: Ptr<Id>, next: Ptr<Id>, x: Id)
    requires Closed(f)
  {
    && root in f.span && x in f.span && x !in f.up && root != x
    && Gap(f, l, root, prev, next) && Adjacent(f, root, prev, next)
    && (prev.To? ==> f.span[prev.id].lo < f.span[x].lo)
    && (next.To? ==> f.span[x].lo < f.span[next.id].lo)
  }

  /** Siblings that start at the same address are the same. */
  ghost predicate StartApart<Id>(f: Forest<Id>, c: Id, d: Id)
    requires Closed(f) && c in f.up && d in f.up
  {
    f.up[c] == f.up[d] && f.span[c].lo == f.span[d].lo ==> c == d
  }

  ghost predicate DistinctStarts<Id>(f: Forest<Id>)
    requires Closed(f)
  {
    forall c, d {:trigger StartApart(f, c, d)} | c in f.up && d in f.up :: StartApart(f, c, d)
  }

  lemma WellFormedDistinctStarts<Id>(f: Forest<Id>)
    requires WellFormed(f)
    ensures DistinctStarts(f)
  {
    forall c, d | c in f.up && d in f.up ensures StartApart(f, c, d) {
      assert c == d || f.up[c] != f.up[d] || !f.span[c].Overlaps(f.span[d]);
    }
  }

  lemma ThreadInFirst<Id>(f: Forest<Id>, l: Links<Id>, root: Id, prev: Ptr<Id>, next: Ptr<Id>, x: Id, p: Id)
    requires Closed(f) && CanThreadIn(f, l, root, prev, next, x) && p in f.span
    requires FirstChild(f, l.first, p)
    ensures FirstChild(Attach(f, root, x), ThreadIn(l, root, prev, next, x).first, p)
  {
  }

  lemma ThreadInNext<Id>(f: Forest<Id>, l: Links<Id>, root: Id, prev: Ptr<Id>, next: Ptr<Id>, x: Id, c: Id)
    requires Closed(f) && DistinctStarts(f) && CanThreadIn(f, l, root, prev, next, x) && c in f.up
    requires NextSibling(f, l.next, c)
    ensures NextSibling(Attach(f, root, x), ThreadIn(l, root, prev, next, x).next, c)
  {
    assert prev.To? ==> StartApart(f, c, prev.id);
  }

  lemma ThreadInNextNew<Id>(f: Forest<Id>, l: Links<Id>, root: Id, prev: Ptr<Id>, next: Ptr<Id>, x: Id)
    requires Closed(f) && CanThreadIn(f, l, root, prev, next, x)
    ensures NextSibling(Attach(f, root, x), ThreadIn(l, root, prev, next, x).next, x)
  {
  }

  lemma ThreadInKeepsThreaded<Id>(f: Forest<Id>, l: Links<Id>, root: Id, prev: Ptr<Id>, next: Ptr<Id>, x: Id)
    requires Closed(f) && DistinctStarts(f) && Threaded(f, l) && CanThreadIn(f, l, root, prev, next, x)
    ensures Threaded(Attach(f, root, x), ThreadIn(l, root, prev, next, x))
  {
    forall p | p in f.span ensures FirstChild(Attach(f, root, x), ThreadIn(l, root, prev, next, x).first, p) {
      ThreadInFirst(f, l, root, prev, next, x, p);
    }
    forall c | c in Attach(f, root, x).up
      ensures NextSibling(Attach(f, root, x), ThreadIn(l, root, prev, next, x).next, c)
    {
      if c == x {
        ThreadInNextNew(f, l, root, prev, next, x);
      } else {
        ThreadInNext(f, l, root, prev, next, x, c);
      }
    }
  }

  // ---------------------------------------------------------- unlinking

  /** Takes `x`, which follows `prev` in the child list of `p`, out of that list. */
  ghost function Unthread<Id>(l: Links<Id>, p: Id, prev: Ptr<Id>, x: Id): Links<Id> {
    match prev
    case Null => l.(first := Put(l.first, p, Get(l.next, x)))
    case To(b) => l.(next := Put(l.next, b, Get(l.next, x)))
  }

  lemma UnthreadFirst<Id>(f: Forest<Id>, l: Links<Id>, p: Id, prev: Ptr<Id>, x: Id, q: Id)
    requires Closed(f) && ChildOf(f, x, p) && Gap(f, l, p, prev, To(x))
    requires DistinctStarts(f) && NextSibling(f, l.next, x) && FirstChild(f, l.first, q)
    requires prev.To? ==> NextSibling(f, l.next, prev.id)
    ensures FirstChild(Detach(f, x), Unthread(l, p, prev, x).first, q)
  {
    assert forall d | d in f.up :: StartApart(f, d, x);
    if q == p && prev.To? {
      assert f.span[l.first[p]].lo <= f.span[prev.id].lo;
    }
  }

  lemma UnthreadNext<Id>(f: Forest<Id>, l: Links<Id>, p: Id, prev: Ptr<Id>, x: Id, c: Id)
    requires Closed(f) && ChildOf(f, x, p) && Gap(f, l, p, prev, To(x))
    requires DistinctStarts(f) && NextSibling(f, l.next, x) && FirstChild(f, l.first, p)
    requires prev.To? ==> NextSibling(f, l.next, prev.id)
    requires c in f.up && c != x && NextSibling(f, l.next, c)
    ensures NextSibling(Detach(f, x), Unthread(l, p, prev, x).next, c)
  {
    assert forall d | d in f.up :: StartApart(f, d, x);
    if prev != To(c) && f.up[c] == p {
      assert prev.To? ==> StartApart(f, c, prev.id);
    }
  }

  lemma UnthreadKeepsThreaded<Id>(f: Forest<Id>, l: Links<Id>, p: Id, prev: Ptr<Id>, x: Id)
    requires Closed(f) && DistinctStarts(f) && Threaded(f, l) && ChildOf(f, x, p) && Gap(f, l, p, prev, To(x))
    ensures Threaded(Detach(f, x), Unthread(l, p, prev, x))
  {
    assert NextSibling(f, l.next, x) && FirstChild(f, l.first, p);
    assert prev.To? ==> NextSibling(f, l.next, prev.id);
    forall q | q in f.span ensures FirstChild(Detach(f, x), Unthread(l, p, prev, x).first, q) {
      UnthreadFirst(f, l, p, prev, x, q);
    }
    forall c | c in Detach(f, x).up ensures NextSibling(Detach(f, x), Unthread(l, p, prev, x).next, c) {
      UnthreadNext(f, l, p, prev, x, c);
    }
  }

  // ---------------------------------------------------------- adopting

  /** Puts `x` in the place of the run of children from `a` to `b`, which becomes the child list of `x`. */
  ghost function Splice<Id>(l: Links<Id>, p: Id, prev: Ptr<Id>, x: Id, a: Id, b: Id): Links<Id> {
    var next := Put(l.next, x, Get(l.next, b)) - {b};
    match prev
    case Null => Links(next, l.first[x := a][p := x])
    case To(c) => Links(next[c := x], l.first[x := a])
  }

  /** The children of `p` covered by `x` are those from `a` to `b`, and `a` follows `prev`. */
  ghost predicate Run<Id>(f: Forest<Id>, l: Links<Id>, p: Id, prev: Ptr<Id>, x: Id, a: Id, b: Id)
    requires Closed(f)
  {
    && x in f.span && x !in f.up && p in f.span && p != x
    && ChildOf(f, a, p) && ChildOf(f, b, p) && Gap(f, l, p, prev, To(a))
    && (forall c | ChildOf(f, c, p) ::
          f.span[x].Contains(f.span[c]) <==> f.span[a].lo <= f.span[c].lo <= f.span[b].lo)
    && (prev.To? ==> f.span[prev.id].lo < f.span[a].lo && f.span[prev.id].lo < f.span[x].lo)
    && f.span[a].lo <= f.span[b].lo
    && (b in l.next ==> l.next[b] in f.span && f.span[x].lo < f.span[l.next[b]].lo)
  }

  lemma SpliceFirst<Id>(f: Forest<Id>, l: Links<Id>, p: Id, prev: Ptr<Id>, x: Id, a: Id, b: Id, q: Id)
    requires Closed(f) && Loose(f, x) && Run(f, l, p, prev, x, a, b)
    requires NextSibling(f, l.next, b) && FirstChild(f, l.first, p) && q in f.span && FirstChild(f, l.first, q)
    ensures Closed(Adopt(f, p, x)) && FirstChild(Adopt(f, p, x), Splice(l, p, prev, x, a, b).first, q)
  {
    var g := Adopt(f, p, x);
    if q == x {
      assert forall c | ChildOf(g, c, x) :: ChildOf(f, c, p) && f.span[a].lo <= f.span[c].lo;
    } else if q == p {
      forall c | ChildOf(g, c, p) && c != x
        ensures ChildOf(f, c, p) && (f.span[c].lo < f.span[a].lo || f.span[b].lo < f.span[c].lo)
      {
      }
      if prev.To? {
        assert f.span[l.first[p]].lo <= f.span[prev.id].lo;
      }
    } else {
      assert forall c | c in f.up && f.up[c] == q :: g.up[c] == q;
      assert forall c | ChildOf(g, c, q) :: ChildOf(f, c, q);
    }
  }

  lemma SpliceNextNew<Id>(f: Forest<Id>, l: Links<Id>, p: Id, prev: Ptr<Id>, x: Id, a: Id, b: Id)
    requires Closed(f) && Loose(f, x) && Run(f, l, p, prev, x, a, b)
    requires NextSibling(f, l.next, b) && FirstChild(f, l.first, p)
    requires prev.To? ==> NextSibling(f, l.next, prev.id)
    ensures Closed(Adopt(f, p, x)) && NextSibling(Adopt(f, p, x), Splice(l, p, prev, x, a, b).next, x)
  {
    var g := Adopt(f, p, x);
    GapBefore(f, l, p, prev, a);
    forall c | ChildOf(g, c, p) && c != x
      ensures ChildOf(f, c, p) && (f.span[c].lo < f.span[x].lo || (b in l.next && f.span[l.next[b]].lo <= f.span[c].lo))
    {
    }
  }

  /** The children before `a` start no later than `prev`. */
  lemma GapBefore<Id>(f: Forest<Id>, l: Links<Id>, p: Id, prev: Ptr<Id>, a: Id)
    requires Closed(f) && ChildOf(f, a, p) && Gap(f, l, p, prev, To(a)) && FirstChild(f, l.first, p)
    requires prev.To? ==> NextSibling(f, l.next, prev.id)
    ensures forall c | ChildOf(f, c, p) && f.span[c].lo < f.span[a].lo :: prev.To? && f.span[c].lo <= f.span[prev.id].lo
  {
  }

  lemma SpliceNextCovered<Id>(f: Forest<Id>, l: Links<Id>, p: Id, prev: Ptr<Id>, x: Id, a: Id, b: Id, c: Id)
    requires Closed(f) && Loose(f, x) && Run(f, l, p, prev, x, a, b)
    requires ChildOf(f, c, p) && StartApart(f, c, b) && f.span[x].Contains(f.span[c]) && NextSibling(f, l.next, c)
    ensures Closed(Adopt(f, p, x)) && NextSibling(Adopt(f, p, x), Splice(l, p, prev, x, a, b).next, c)
  {
    var g := Adopt(f, p, x);
    forall d | ChildOf(g, d, x) ensures ChildOf(f, d, p) && f.span[a].lo <= f.span[d].lo <= f.span[b].lo {
    }
    if c != b {
      assert f.span[c].lo < f.span[b].lo;
      assert ChildOf(g, l.next[c], x);
    }
  }

  lemma SpliceNextUncovered<Id>(f: Forest<Id>, l: Links<Id>, p: Id, prev: Ptr<Id>, x: Id, a: Id, b: Id, c: Id)
    requires Closed(f) && Loose(f, x) && Run(f, l, p, prev, x, a, b)
    requires NextSibling(f, l.next, b) && FirstChild(f, l.first, p)
    requires prev.To? ==> NextSibling(f, l.next, prev.id)
    requires ChildOf(f, c, p) && !f.span[x].Contains(f.span[c]) && NextSibling(f, l.next, c)
    requires prev.To? ==> StartApart(f, c, prev.id)
    ensures Closed(Adopt(f, p, x)) && NextSibling(Adopt(f, p, x), Splice(l, p, prev, x, a, b).next, c)
  {
    var g := Adopt(f, p, x);
    GapBefore(f, l, p, prev, a);
    forall d | ChildOf(g, d, p) && d != x
      ensures ChildOf(f, d, p) && (f.span[d].lo < f.span[a].lo || f.span[b].lo < f.span[d].lo)
    {
    }
    if f.span[c].lo < f.span[a].lo {
      if prev != To(c) {
        assert f.span[c].lo < f.span[prev.id].lo;
        assert f.span[l.next[c]].lo <= f.span[prev.id].lo;
      }
    } else {
      assert b in l.next && f.span[l.next[b]].lo <= f.span[c].lo;
    }
  }

  lemma SpliceNextElsewhere<Id>(f: Forest<Id>, l: Links<Id>, p: Id, prev: Ptr<Id>, x: Id, a: Id, b: Id, c: Id)
    requires Closed(f) && Loose(f, x) && Run(f, l, p, prev, x, a, b)
    requires c in f.up && f.up[c] != p && NextSibling(f, l.next, c)
    ensures Closed(Adopt(f, p, x)) && NextSibling(Adopt(f, p, x), Splice(l, p, prev, x, a, b).next, c)
  {
    var g := Adopt(f, p, x);
    forall d | d in g.up && g.up[d] == f.up[c] ensures d in f.up && f.up[d] == f.up[c] {
    }
  }

  lemma SpliceNext<Id>(f: Forest<Id>, l: Links<Id>, p: Id, prev: Ptr<Id>, x: Id, a: Id, b: Id, c: Id)
    requires Closed(f) && DistinctStarts(f) && Threaded(f, l) && Loose(f, x) && Run(f, l, p, prev, x, a, b)
    requires c in f.up
    ensures Closed(Adopt(f, p, x)) && NextSibling(Adopt(f, p, x), Splice(l, p, prev, x, a, b).next, c)
  {
    assert NextSibling(f, l.next, c);
    if f.up[c] != p {
      SpliceNextElsewhere(f, l, p, prev, x, a, b, c);
    } else if f.span[x].Contains(f.span[c]) {
      assert StartApart(f, c, b);
      SpliceNextCovered(f, l, p, prev, x, a, b, c);
    } else {
      assert NextSibling(f, l.next, b) && FirstChild(f, l.first, p);
      assert prev.To? ==> NextSibling(f, l.next, prev.id) && StartApart(f, c, prev.id);
      SpliceNextUncovered(f, l, p, prev, x, a, b, c);
    }
  }

  lemma SpliceKeepsThreaded<Id>(f: Forest<Id>, l: Links<Id>, p: Id, prev: Ptr<Id>, x: Id, a: Id, b: Id)
    requires Closed(f) && DistinctStarts(f) && Threaded(f, l) && Loose(f, x) && Run(f, l, p, prev, x, a, b)
    ensures Closed(Adopt(f, p, x)) && Threaded(Adopt(f, p, x), Splice(l, p, prev, x, a, b))
  {
    assert NextSibling(f, l.next, b) && FirstChild(f, l.first, p);
    assert prev.To? ==> NextSibling(f, l.next, prev.id);
    forall q | q in f.span ensures FirstChild(Adopt(f, p, x), Splice(l, p, prev, x, a, b).first, q) {
      SpliceFirst(f, l, p, prev, x, a, b, q);
    }
    forall c | c in f.up ensures NextSibling(Adopt(f, p, x), Splice(l, p, prev, x, a, b).next, c) {
      SpliceNext(f, l, p, prev, x, a, b, c);
    }
    SpliceNextNew(f, l, p, prev, x, a, b);
  }

  /** Half-way through adoption: of the covered children only those that start below `k` have moved. */
  ghost function AdoptBelow<Id>(f: Forest<Id>, p: Id, x: Id, k: int): Forest<Id>
    requires Closed(f) && x in f.span
  {
    f.(up := map c | c in f.up.Keys + {x} ::
         if c == x then p
         else if f.up[c] == p && f.span[x].Contains(f.span[c]) && f.span[c].lo < k then x
         else f.up[c])
  }

  lemma AdoptNone<Id>(f: Forest<Id>, p: Id, x: Id, k: int)
    requires Closed(f) && x in f.span && x !in f.up
    requires forall c | ChildOf(f, c, p) && f.span[x].Contains(f.span[c]) :: k <= f.span[c].lo
    ensures AdoptBelow(f, p, x, k) == Attach(f, p, x)
  {
    assert AdoptBelow(f, p, x, k).up == Attach(f, p, x).up;
  }

  lemma AdoptOne<Id>(f: Forest<Id>, p: Id, x: Id, k: int, c: Id)
    requires Closed(f) && x in f.span && DistinctStarts(f)
    requires ChildOf(f, c, p) && c != x && f.span[x].Contains(f.span[c])
    requires forall d | ChildOf(f, d, p) && f.span[x].Contains(f.span[d]) :: f.span[d].lo < k || f.span[c].lo <= f.span[d].lo
    requires k <= f.span[c].lo
    ensures AdoptBelow(f, p, x, f.span[c].lo + 1).up == AdoptBelow(f, p, x, k).up[c := x]
  {
    var g, h := AdoptBelow(f, p, x, f.span[c].lo + 1).up, AdoptBelow(f, p, x, k).up[c := x];
    forall d | d in g ensures g[d] == h[d] {
      if d in f.up {
        assert StartApart(f, d, c);
      }
    }
  }

  lemma AdoptAll<Id>(f: Forest<Id>, p: Id, x: Id, k: int)
    requires Closed(f) && x in f.span
    requires forall c | ChildOf(f, c, p) && f.span[x].Contains(f.span[c]) :: f.span[c].lo < k
    ensures AdoptBelow(f, p, x, k) == Adopt(f, p, x)
  {
    assert AdoptBelow(f, p, x, k).up == Adopt(f, p, x).up;
  }

  // ---------------------------------------------------------- resizing

  /** With the range `s`, `x` would keep its place among its siblings. */
  ghost predicate SamePlace<Id>(f: Forest<Id>, x: Id, s: Span)
    requires Closed(f) && x in f.span
  {
    x in f.up ==>
      forall d | d in f.up && f.up[d] == f.up[x] && d != x ::
        f.span[d].lo != s.lo && (f.span[d].lo < f.span[x].lo <==> f.span[d].lo < s.lo)
  }

  lemma RespanFirst<Id>(f: Forest<Id>, l: Links<Id>, x: Id, s: Span, p: Id)
    requires Closed(f) && x in f.span && SamePlace(f, x, s) && FirstChild(f, l.first, p)
    requires forall c | c in f.up && x in f.up :: StartApart(f, c, x)
    ensures FirstChild(Respan(f, x, s), l.first, p)
  {
  }

  lemma RespanNext<Id>(f: Forest<Id>, l: Links<Id>, x: Id, s: Span, c: Id)
    requires Closed(f) && x in f.span && SamePlace(f, x, s) && c in f.up && NextSibling(f, l.next, c)
    requires forall c | c in f.up && x in f.up :: StartApart(f, c, x)
    ensures NextSibling(Respan(f, x, s), l.next, c)
  {
  }

  lemma RespanKeepsThreaded<Id>(f: Forest<Id>, l: Links<Id>, x: Id, s: Span)
    requires Closed(f) && DistinctStarts(f) && Threaded(f, l) && x in f.span && SamePlace(f, x, s)
    ensures Threaded(Respan(f, x, s), l)
  {
    assert forall c | c in f.up && x in f.up :: StartApart(f, c, x);
    forall p | p in f.span ensures FirstChild(Respan(f, x, s), l.first, p) {
      RespanFirst(f, l, x, s, p);
    }
    forall c | c in f.up ensures NextSibling(Respan(f, x, s), l.next, c) {
      RespanNext(f, l, x, s, c);
    }
  }
}
