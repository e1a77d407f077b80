/**
  The resource tree as it is kept in memory: resources linked by parent, sibling and
  child pointers, and the operations that edit those pointers in place.
 */
module ResourceTree {
  import opened ResourceForest
  import opened ResourceBusy
  import opened ResourceLinks

  /** The flag bits the tree operations look at. */
  datatype Flags = Flags(kind: int, busy: bool, muxed: bool, unset: bool)

  class Resource {
    var start: int
    var end: int
    var flags: Flags
    var parent: Resource?
    var sibling: Resource?
    var child: Resource?

    constructor (start: int, end: int, flags: Flags)
      ensures this.start == start && this.end == end && this.flags == flags
      ensures parent == null && sibling == null && child == null
    {
      this.start, this.end, this.flags := start, end, flags;
      parent, sibling, child := null, null, null;
    }

    function Range(): Span
      reads this
    {
      Span(start, end)
    }
  }

  ghost function PtrTo(r: Resource?): Ptr<Resource> {
    if r == null then Null else To(r)
  }

  /** The tree that the parent fields of `nodes` describe. */
  ghost function Abs(nodes: set<Resource>): Forest<Resource>
    reads nodes
  {
    Forest(map r | r in nodes :: r.Range(),
           map r | r in nodes && r.parent != null :: r.parent,
           set r | r in nodes && r.flags.busy)
  }

  ghost function LinksOf(nodes: set<Resource>): Links<Resource>
    reads nodes
  {
    Links(map r | r in nodes && r.sibling != null :: r.sibling,
          map r | r in nodes && r.child != null :: r.child)
  }

  /** `nodes` holds every resource that is in a tree or may be put into one. */
  ghost predicate Valid(nodes: set<Resource>)
    reads nodes
  {
    WellFormed(Abs(nodes)) && Threaded(Abs(nodes), LinksOf(nodes))
  }

  // -------------------------------------------------- single pointer writes

  method SetSibling(ghost nodes: set<Resource>, x: Resource, y: Resource?)
    requires x in nodes
    modifies x`sibling
    ensures x.sibling == y && Abs(nodes) == old(Abs(nodes))
    ensures LinksOf(nodes) == old(LinksOf(nodes)).(next := Put(old(LinksOf(nodes)).next, x, PtrTo(y)))
  {
    x.sibling := y;
  }

  method SetChild(ghost nodes: set<Resource>, x: Resource, y: Resource?)
    requires x in nodes
    modifies x`child
    ensures x.child == y && Abs(nodes) == old(Abs(nodes))
    ensures LinksOf(nodes) == old(LinksOf(nodes)).(first := Put(old(LinksOf(nodes)).first, x, PtrTo(y)))
  {
    x.child := y;
  }

  method SetParent(ghost nodes: set<Resource>, x: Resource, y: Resource?)
    requires x in nodes
    modifies x`parent
    ensures x.parent == y && LinksOf(nodes) == old(LinksOf(nodes))
    ensures Abs(nodes) == old(Abs(nodes)).(up := Put(old(Abs(nodes)).up, x, PtrTo(y)))
  {
    x.parent := y;
  }

  method SetRange(ghost nodes: set<Resource>, x: Resource, start: int, end: int)
    requires x in nodes
    modifies x`start, x`end
    ensures x.start == start && x.end == end && LinksOf(nodes) == old(LinksOf(nodes))
    ensures Abs(nodes) == Respan(old(Abs(nodes)), x, Span(start, end))
  {
    x.start, x.end := start, end;
    assert forall r | r in nodes && r != x :: r.Range() == old(r.Range());
    assert Abs(nodes).up == old(Abs(nodes)).up && Abs(nodes).busy == old(Abs(nodes)).busy;
  }

  // ------------------------------------------------------ request and release

  method LinkIn(ghost nodes: set<Resource>, root: Resource, prev: Resource?, next: Resource?, new_: Resource)
    requires root in nodes && new_ in nodes && (prev != null ==> prev in nodes)
    modifies nodes`parent, nodes`sibling, nodes`child
    ensures Abs(nodes) == Attach(old(Abs(nodes)), root, new_)
    ensures LinksOf(nodes) == ThreadIn(old(LinksOf(nodes)), root, PtrTo(prev), PtrTo(next), new_)
    ensures old(CanLinkIn(Abs(nodes), LinksOf(nodes), root, PtrTo(prev), PtrTo(next), new_)) ==> Valid(nodes)
  {
    ghost var f, l := Abs(nodes), LinksOf(nodes);
    SetSibling(nodes, new_, next);
    HookUp(nodes, root, prev, new_);
    SetParent(nodes, new_, root);
    if CanLinkIn(f, l, root, PtrTo(prev), PtrTo(next), new_) {
      LinkInIsValid(f, l, root, PtrTo(prev), PtrTo(next), new_);
    }
  }

  /** The range of `x` lies in the gap between `prev` and `next` in the child list of `root`. */
  ghost predicate CanLinkIn(f: Forest<Resource>, l: Links<Resource>, root: Resource, prev: Ptr<Resource>, next: Ptr<Resource>, x: Resource) {
    && WellFormed(f) && Threaded(f, l) && Loose(f, x) && root in f.span && root != x
    && Gap(f, l, root, prev, next) && f.span[x].Proper() && f.span[root].Contains(f.span[x])
    && (prev.To? ==> f.span[prev.id].hi < f.span[x].lo)
    && (next.To? ==> next.id in f.span && f.span[x].hi < f.span[next.id].lo)
  }

  lemma LinkInIsValid(f: Forest<Resource>, l: Links<Resource>, root: Resource, prev: Ptr<Resource>, next: Ptr<Resource>, x: Resource)
    requires CanLinkIn(f, l, root, prev, next, x)
    ensures CanHold(f, root, f.span[x])
    ensures WellFormed(Attach(f, root, x)) && Threaded(Attach(f, root, x), ThreadIn(l, root, prev, next, x))
  {
    GapIsFree(f, l, root, prev, next, f.span[x]);
    GapIsAdjacent(f, l, root, prev, next);
    WellFormedDistinctStarts(f);
    AdoptWithoutChildren(f, root, x);
    AdoptKeepsWellFormed(f, root, x);
    ThreadInKeepsThreaded(f, l, root, prev, next, x);
  }

  lemma ValidLoose(nodes: set<Resource>, x: Resource)
    requires Valid(nodes) && x in nodes && x.parent == null && x.child == null
    ensures Loose(Abs(nodes), x)
  {
    assert FirstChild(Abs(nodes), LinksOf(nodes).first, x);
  }

  /**
    Walks the child list of `root` up to the place of the range `start..end`: either `next` is the
    lowest child that overlaps it, or the range lies between `prev` and `next`.
   */
  method ScanChildren(ghost nodes: set<Resource>, root: Resource, start: int, end: int)
    returns (prev: Resource?, next: Resource?, hit: bool)
    requires Valid(nodes) && root in nodes && start <= end
    ensures (prev != null ==> prev in nodes) && (next != null ==> next in nodes)
    ensures Gap(Abs(nodes), LinksOf(nodes), root, PtrTo(prev), PtrTo(next))
    ensures prev != null ==> prev.end < start
    ensures hit ==> next != null && Blocks(Abs(nodes), root, Span(start, end), next)
    ensures !hit && next != null ==> end < next.start
  {
    ghost var f, l := Abs(nodes), LinksOf(nodes);
    prev, next := null, root.child;
    GapIsAdjacent(f, l, root, PtrTo(prev), PtrTo(next));
    while next != null && next.start <= end && next.end < start
      invariant prev != null ==> prev in nodes && prev.end < start
      invariant Gap(f, l, root, PtrTo(prev), PtrTo(next))
      invariant Adjacent(f, root, PtrTo(prev), PtrTo(next))
      decreases if next == null then -1 else root.end - next.start
    {
      prev, next := next, next.sibling;
      GapIsAdjacent(f, l, root, PtrTo(prev), PtrTo(next));
    }
    hit := next != null && next.start <= end;
    if hit {
      LowestOverlap(f, root, PtrTo(prev), next, Span(start, end));
    }
  }

  /**
    Puts `new_` among the children of `root`, or returns a resource that stands in the way:
    `root` if the range does not fit into it, otherwise the lowest child that overlaps it.
   */
  method RequestResource(ghost nodes: set<Resource>, root: Resource, new_: Resource) returns (conflict: Resource?)
    requires Valid(nodes) && root in nodes && new_ in nodes && root != new_
    requires new_.parent == null && new_.child == null
    modifies nodes`parent, nodes`sibling, nodes`child
    ensures Valid(nodes)
    ensures conflict == null ==>
              && CanHold(old(Abs(nodes)), root, new_.Range())
              && Abs(nodes) == Attach(old(Abs(nodes)), root, new_)
              && Moves(old(Abs(nodes)), Request(root, new_), Abs(nodes))
    ensures conflict != null ==> unchanged(nodes)
    ensures conflict == root <==> !(new_.Range().Proper() && root.Range().Contains(new_.Range()))
    ensures conflict != null && conflict != root ==> Blocks(old(Abs(nodes)), root, new_.Range(), conflict)
  {
    var start, end := new_.start, new_.end;
    if end < start {
      return root;
    }
    if start < root.start {
      return root;
    }
    if end > root.end {
      return root;
    }
    var prev, next, hit := ScanChildren(nodes, root, start, end);
    if hit {
      return next;
    }
    ValidLoose(nodes, new_);
    LinkInIsValid(Abs(nodes), LinksOf(nodes), root, PtrTo(prev), PtrTo(next), new_);
    LinkIn(nodes, root, prev, next, new_);
    return null;
  }

  lemma LowestOverlap(f: Forest<Resource>, root: Resource, prev: Ptr<Resource>, c: Resource, s: Span)
    requires WellFormed(f) && Adjacent(f, root, prev, To(c)) && s.Proper()
    requires prev.To? ==> f.span[prev.id].hi < s.lo
    requires f.span[c].Overlaps(s)
    ensures Blocks(f, root, s, c)
  {
    forall d | ChildOf(f, d, root) && f.span[d].Overlaps(s) ensures f.span[c].lo <= f.span[d].lo {
      assert prev.To? && d != prev.id ==> !f.span[d].Overlaps(f.span[prev.id]);
    }
  }

  /** Finds what comes before `x` in the child list of its parent `p`. */
  method FindInList(ghost nodes: set<Resource>, p: Resource, x: Resource) returns (prev: Resource?, found: bool)
    requires Valid(nodes) && p in nodes && x in nodes && x.parent == p
    ensures found
    ensures (prev != null ==> prev in nodes) && Gap(Abs(nodes), LinksOf(nodes), p, PtrTo(prev), To(x))
  {
    ghost var f, l := Abs(nodes), LinksOf(nodes);
    prev := null;
    var tmp := p.child;
    assert ChildOf(f, x, p);
    GapIsAdjacent(f, l, p, PtrTo(prev), PtrTo(tmp));
    WellFormedDistinctStarts(f);
    while tmp != null && tmp != x
      invariant prev != null ==> prev in nodes && prev.start < x.start
      invariant Gap(f, l, p, PtrTo(prev), PtrTo(tmp)) && Adjacent(f, p, PtrTo(prev), PtrTo(tmp))
      decreases if tmp == null then -1 else p.end - tmp.start
    {
      assert StartApart(f, tmp, x);
      prev, tmp := tmp, tmp.sibling;
      GapIsAdjacent(f, l, p, PtrTo(prev), PtrTo(tmp));
    }
    found := tmp != null;
  }

  /** Takes `old_` out of the child list of its parent. */
  method ReleaseResource(ghost nodes: set<Resource>, old_: Resource) returns (ok: bool)
    requires Valid(nodes) && old_ in nodes && old_.parent != null
    modifies nodes`parent, nodes`sibling, nodes`child
    ensures ok && Valid(nodes) && Abs(nodes) == Detach(old(Abs(nodes)), old_)
    ensures Moves(old(Abs(nodes)), Release(old_), Abs(nodes))
  {
    assert old_ in Abs(nodes).up;
    var prev, found := FindInList(nodes, old_.parent, old_);
    if !found {
      return false;
    }
    UnlinkIsValid(Abs(nodes), LinksOf(nodes), old_.parent, PtrTo(prev), old_);
    Unlink(nodes, old_.parent, prev, old_);
    return true;
  }

  method Unlink(ghost nodes: set<Resource>, p: Resource, prev: Resource?, x: Resource)
    requires p in nodes && x in nodes && (prev != null ==> prev in nodes)
    modifies nodes`parent, nodes`sibling, nodes`child
    ensures Abs(nodes) == Detach(old(Abs(nodes)), x)
    ensures LinksOf(nodes) == Unthread(old(LinksOf(nodes)), p, PtrTo(prev), x)
  {
    if prev == null {
      SetChild(nodes, p, x.sibling);
    } else {
      SetSibling(nodes, prev, x.sibling);
    }
    SetParent(nodes, x, null);
  }

  lemma UnlinkIsValid(f: Forest<Resource>, l: Links<Resource>, p: Resource, prev: Ptr<Resource>, x: Resource)
    requires WellFormed(f) && Threaded(f, l) && ChildOf(f, x, p) && Gap(f, l, p, prev, To(x))
    ensures WellFormed(Detach(f, x)) && Threaded(Detach(f, x), Unthread(l, p, prev, x))
  {
    WellFormedDistinctStarts(f);
    DetachKeepsWellFormed(f, x);
    UnthreadKeepsThreaded(f, l, p, prev, x);
  }

  // -------------------------------------------------------------- insertion

  /** The children of `p` that overlap `x` are exactly those from `a` to `b`, and `x` covers them all. */
  ghost predicate CoveredRun(f: Forest<Resource>, p: Resource, x: Resource, a: Resource, b: Resource)
    requires Closed(f)
  {
    && x in f.span && ChildOf(f, a, p) && ChildOf(f, b, p) && f.span[a].lo <= f.span[b].lo
    && (forall c | ChildOf(f, c, p) && f.span[c].Overlaps(f.span[x]) :: f.span[x].Contains(f.span[c]))
    && (forall c | ChildOf(f, c, p) ::
          f.span[x].Contains(f.span[c]) <==> f.span[a].lo <= f.span[c].lo <= f.span[b].lo)
  }

  /** From `first`, the lowest child of `parent` that overlaps `new_`, on: is everything that overlaps it covered? */
  method WalkOverlaps(ghost nodes: set<Resource>, parent: Resource, first: Resource, new_: Resource)
    returns (last: Resource, clean: bool)
    requires Valid(nodes) && parent in nodes && first in nodes && new_ in nodes && new_.Range().Proper()
    requires Blocks(Abs(nodes), parent, new_.Range(), first)
    ensures last in nodes && last.parent == parent && last.Range().Overlaps(new_.Range())
    ensures clean ==> CoveredRun(Abs(nodes), parent, new_, first, last)
    ensures clean ==> last.sibling == null || new_.end < last.sibling.start
    ensures !clean ==> !new_.Range().Contains(last.Range())
    ensures !clean ==> last == first || first.end < last.start
  {
    ghost var f, l := Abs(nodes), LinksOf(nodes);
    WellFormedDistinctStarts(f);
    last := first;
    while true
      invariant last in nodes && last.parent == parent && last.Range().Overlaps(new_.Range())
      invariant last == first || first.end < last.start
      invariant forall c | ChildOf(f, c, parent) && first.start <= f.span[c].lo < last.start :: new_.Range().Contains(f.span[c])
      decreases parent.end - last.start
    {
      if last.start < new_.start || last.end > new_.end {
        return last, false;
      }
      assert NextSibling(f, l.next, last);
      if last.sibling == null || last.sibling.start > new_.end {
        break;
      }
      assert !f.span[last].Overlaps(f.span[last.sibling]);
      assert forall c | ChildOf(f, c, parent) :: StartApart(f, c, last);
      last := last.sibling;
    }
    forall c | ChildOf(f, c, parent)
      ensures f.span[c].Overlaps(new_.Range()) ==> new_.Range().Contains(f.span[c])
      ensures new_.Range().Contains(f.span[c]) <==> first.start <= f.span[c].lo <= last.start
    {
      assert StartApart(f, c, last);
    }
    clean := true;
  }

  /** In the cut-off run the pointer of `c` leads to the next covered child, and from `b` nowhere. */
  ghost predicate RunLink(f: Forest<Resource>, next: map<Resource, Resource>, p: Resource, x: Resource, c: Resource)
    requires Closed(f) && x in f.span && ChildOf(f, c, p)
  {
    && (c in next ==> ChildOf(f, next[c], p) && f.span[x].Contains(f.span[next[c]]) && f.span[c].lo < f.span[next[c]].lo)
    && forall d | ChildOf(f, d, p) && f.span[x].Contains(f.span[d]) ::
         f.span[d].lo <= f.span[c].lo || (c in next && f.span[next[c]].lo <= f.span[d].lo)
  }

  lemma RunStep(f: Forest<Resource>, l: Links<Resource>, p: Resource, x: Resource, a: Resource, b: Resource, c: Resource)
    requires Closed(f) && DistinctStarts(f) && Threaded(f, l) && x !in f.up && CoveredRun(f, p, x, a, b)
    requires ChildOf(f, c, p) && f.span[x].Contains(f.span[c])
    ensures RunLink(f, Put(l.next, x, Get(l.next, b)) - {b}, p, x, c)
  {
    assert StartApart(f, c, b) && NextSibling(f, l.next, c);
  }

  lemma RunSteps(f: Forest<Resource>, l: Links<Resource>, p: Resource, x: Resource, a: Resource, b: Resource)
    requires Closed(f) && DistinctStarts(f) && Threaded(f, l) && x !in f.up && CoveredRun(f, p, x, a, b)
    ensures forall c {:trigger RunLink(f, Put(l.next, x, Get(l.next, b)) - {b}, p, x, c)} |
              ChildOf(f, c, p) && f.span[x].Contains(f.span[c]) :: RunLink(f, Put(l.next, x, Get(l.next, b)) - {b}, p, x, c)
  {
    hide RunLink, Threaded, DistinctStarts;
    forall c | ChildOf(f, c, p) && f.span[x].Contains(f.span[c]) ensures RunLink(f, Put(l.next, x, Get(l.next, b)) - {b}, p, x, c) {
      RunStep(f, l, p, x, a, b, c);
    }
  }

  method ReparentOne(ghost nodes: set<Resource>, ghost f: Forest<Resource>, ghost p: Resource, x: Resource, c: Resource, ghost k: int)
    requires Closed(f) && DistinctStarts(f) && f.span.Keys == nodes && x in nodes && x !in f.up
    requires ChildOf(f, c, p) && f.span[x].Contains(f.span[c]) && k <= f.span[c].lo
    requires forall d | ChildOf(f, d, p) && f.span[x].Contains(f.span[d]) :: f.span[d].lo < k || f.span[c].lo <= f.span[d].lo
    requires Abs(nodes) == AdoptBelow(f, p, x, k)
    modifies c`parent
    ensures Abs(nodes) == AdoptBelow(f, p, x, f.span[c].lo + 1) && LinksOf(nodes) == old(LinksOf(nodes))
  {
    AdoptOne(f, p, x, k, c);
    SetParent(nodes, c, x);
  }

  /** Makes `x` the parent of the chain that starts at `a`. */
  method Reparent(ghost nodes: set<Resource>, ghost f: Forest<Resource>, ghost p: Resource, x: Resource, a: Resource)
    requires Closed(f) && DistinctStarts(f) && f.span.Keys == nodes && x in nodes && x !in f.up
    requires ChildOf(f, a, p) && f.span[x].Contains(f.span[a])
    requires forall d | ChildOf(f, d, p) && f.span[x].Contains(f.span[d]) :: f.span[a].lo <= f.span[d].lo <= f.span[x].hi
    requires forall c {:trigger RunLink(f, LinksOf(nodes).next, p, x, c)} | ChildOf(f, c, p) && f.span[x].Contains(f.span[c]) ::
               RunLink(f, LinksOf(nodes).next, p, x, c)
    requires Abs(nodes) == Attach(f, p, x)
    modifies nodes`parent
    ensures Abs(nodes) == Adopt(f, p, x) && LinksOf(nodes) == old(LinksOf(nodes))
  {
    AdoptNone(f, p, x, f.span[a].lo);
    ghost var k := f.span[a].lo;
    ghost var l := LinksOf(nodes);
    var c: Resource? := a;
    while c != null
      invariant LinksOf(nodes) == l && Abs(nodes) == AdoptBelow(f, p, x, k)
      invariant c != null ==> ChildOf(f, c, p) && f.span[x].Contains(f.span[c]) && k <= f.span[c].lo
      invariant forall d | ChildOf(f, d, p) && f.span[x].Contains(f.span[d]) ::
                  f.span[d].lo < k || (c != null && f.span[c].lo <= f.span[d].lo)
      decreases if c == null then -1 else f.span[x].hi - f.span[c].lo
    {
      assert RunLink(f, l.next, p, x, c);
      ReparentOne(nodes, f, p, x, c, k);
      k := f.span[c].lo + 1;
      assert PtrTo(c.sibling) == Get(LinksOf(nodes).next, c);
      c := c.sibling;
    }
    AdoptAll(f, p, x, k);
  }

  /** Finds what came before `first` in the child list of `parent` before its tail was cut off. */
  method FindBefore(ghost nodes: set<Resource>, ghost f: Forest<Resource>, ghost l: Links<Resource>,
                    parent: Resource, first: Resource) returns (prev: Resource?)
    requires Closed(f) && DistinctStarts(f) && Threaded(f, l)
    requires f.span.Keys == nodes && parent in nodes && ChildOf(f, first, parent)
    requires PtrTo(parent.child) == Get(l.first, parent)
    requires forall c: Resource | ChildOf(f, c, parent) && f.span[c].lo < f.span[first].lo :: PtrTo(c.sibling) == Get(l.next, c)
    ensures (prev != null ==> prev in nodes) && Gap(f, l, parent, PtrTo(prev), To(first))
  {
    assert FirstChild(f, l.first, parent);
    if parent.child == first {
      return null;
    }
    prev := parent.child;
    assert StartApart(f, prev, first);
    while prev.sibling != first
      invariant prev != null && ChildOf(f, prev, parent) && f.span[prev].lo < f.span[first].lo
      decreases f.span[first].lo - f.span[prev].lo
    {
      assert NextSibling(f, l.next, prev);
      assert StartApart(f, l.next[prev], first);
      prev := prev.sibling;
    }
  }

  lemma AdoptRunIsValid(f: Forest<Resource>, l: Links<Resource>, p: Resource, prev: Ptr<Resource>, x: Resource, a: Resource, b: Resource)
    requires WellFormed(f) && Threaded(f, l) && Loose(f, x) && p in f.span && p != x
    requires f.span[x].Proper() && f.span[p].Contains(f.span[x])
    requires CoveredRun(f, p, x, a, b) && Gap(f, l, p, prev, To(a))
    requires b in l.next ==> l.next[b] in f.span && f.span[x].hi < f.span[l.next[b]].lo
    ensures WellFormed(Adopt(f, p, x)) && Threaded(Adopt(f, p, x), Splice(l, p, prev, x, a, b))
  {
    AdoptKeepsWellFormed(f, p, x);
    WellFormedDistinctStarts(f);
    CoveredRunIsRun(f, l, p, prev, x, a, b);
    SpliceKeepsThreaded(f, l, p, prev, x, a, b);
  }

  lemma CoveredRunIsRun(f: Forest<Resource>, l: Links<Resource>, p: Resource, prev: Ptr<Resource>, x: Resource, a: Resource, b: Resource)
    requires Closed(f) && Nested(f) && Threaded(f, l) && x !in f.up && p in f.span && p != x
    requires CoveredRun(f, p, x, a, b) && Gap(f, l, p, prev, To(a))
    requires f.span[x].Proper() && (b in l.next ==> l.next[b] in f.span && f.span[x].hi < f.span[l.next[b]].lo)
    ensures ResourceLinks.Run(f, l, p, prev, x, a, b)
  {
    GapIsAdjacent(f, l, p, prev, To(a));
  }

  /** Edits the pointers so that `new_` comes between `parent` and the children from `first` to `last`. */
  method SpliceRun(ghost nodes: set<Resource>, ghost f: Forest<Resource>, ghost l: Links<Resource>,
                   parent: Resource, new_: Resource, first: Resource, last: Resource) returns (ghost prev: Ptr<Resource>)
    requires f == Abs(nodes) && l == LinksOf(nodes) && Closed(f) && DistinctStarts(f) && Threaded(f, l)
    requires parent in nodes && new_ in nodes && first in nodes && last in nodes && parent != new_
    requires new_.parent == null && CoveredRun(f, parent, new_, first, last)
    requires forall c | ChildOf(f, c, parent) && f.span[new_].Contains(f.span[c]) :: f.span[c].lo <= f.span[new_].hi
    modifies nodes`parent, nodes`sibling, nodes`child
    ensures Gap(f, l, parent, prev, To(first))
    ensures Abs(nodes) == Adopt(f, parent, new_) && LinksOf(nodes) == Splice(l, parent, prev, new_, first, last)
  {
    hide Threaded, DistinctStarts, Adopt, Gap, CoveredRun;
    TakeRun(nodes, f, l, parent, new_, first, last);
    var before := FindBefore(nodes, f, l, parent, first);
    HookUp(nodes, parent, before, new_);
    prev := PtrTo(before);
  }

  /** Cuts the run out of the child list of `parent` and hangs it below `new_`, which is not in that list yet. */
  method TakeRun(ghost nodes: set<Resource>, ghost f: Forest<Resource>, ghost l: Links<Resource>,
                 parent: Resource, new_: Resource, first: Resource, last: Resource)
    requires f == Abs(nodes) && l == LinksOf(nodes) && Closed(f) && DistinctStarts(f) && Threaded(f, l)
    requires parent in nodes && new_ in nodes && first in nodes && last in nodes && parent != new_
    requires new_.parent == null && CoveredRun(f, parent, new_, first, last)
    requires forall c | ChildOf(f, c, parent) && f.span[new_].Contains(f.span[c]) :: f.span[c].lo <= f.span[new_].hi
    modifies nodes`parent, nodes`sibling, nodes`child
    ensures Abs(nodes) == Adopt(f, parent, new_)
    ensures LinksOf(nodes) == Links(Put(l.next, new_, Get(l.next, last)) - {last}, l.first[new_ := first])
    ensures ChildOf(f, first, parent) && PtrTo(parent.child) == Get(l.first, parent)
    ensures forall c: Resource | ChildOf(f, c, parent) && f.span[c].lo < f.span[first].lo :: PtrTo(c.sibling) == Get(l.next, c)
  {
    hide RunLink, Threaded, DistinctStarts, Adopt;
    RunSteps(f, l, parent, new_, first, last);
    CutRun(nodes, parent, new_, first, last);
    Reparent(nodes, f, parent, new_, first);
  }

  /** Makes the link that follows `prev` in the child list of `parent` lead to `x`. */
  method HookUp(ghost nodes: set<Resource>, parent: Resource, prev: Resource?, x: Resource)
    requires parent in nodes && (prev != null ==> prev in nodes)
    modifies nodes`sibling, nodes`child
    ensures Abs(nodes) == old(Abs(nodes))
    ensures LinksOf(nodes) == if prev == null then old(LinksOf(nodes)).(first := old(LinksOf(nodes)).first[parent := x])
                              else old(LinksOf(nodes)).(next := old(LinksOf(nodes)).next[prev := x])
  {
    if prev == null {
      SetChild(nodes, parent, x);
    } else {
      SetSibling(nodes, prev, x);
    }
  }

  /** Puts `new_` between `parent` and the children from `first` to `last`. */
  method AdoptRun(ghost nodes: set<Resource>, parent: Resource, new_: Resource, first: Resource, last: Resource)
    requires Valid(nodes) && parent in nodes && new_ in nodes && first in nodes && last in nodes && parent != new_
    requires new_.parent == null && new_.child == null
    requires new_.Range().Proper() && parent.Range().Contains(new_.Range())
    requires CoveredRun(Abs(nodes), parent, new_, first, last)
    requires last.sibling == null || (last.sibling in nodes && new_.end < last.sibling.start)
    modifies nodes`parent, nodes`sibling, nodes`child
    ensures Valid(nodes) && Abs(nodes) == Adopt(old(Abs(nodes)), parent, new_)
  {
    ghost var f, l := Abs(nodes), LinksOf(nodes);
    ValidLoose(nodes, new_);
    WellFormedDistinctStarts(f);
    ghost var prev := SpliceRun(nodes, f, l, parent, new_, first, last);
    AdoptRunIsValid(f, l, parent, prev, new_, first, last);
  }

  method CutRun(ghost nodes: set<Resource>, parent: Resource, new_: Resource, first: Resource, last: Resource)
    requires parent in nodes && new_ in nodes && first in nodes && last in nodes && new_ != last
    modifies nodes`parent, nodes`sibling, nodes`child
    ensures Abs(nodes) == Attach(old(Abs(nodes)), parent, new_)
    ensures LinksOf(nodes).next == Put(old(LinksOf(nodes)).next, new_, Get(old(LinksOf(nodes)).next, last)) - {last}
    ensures LinksOf(nodes).first == old(LinksOf(nodes)).first[new_ := first]
    ensures forall r | r in nodes && r != new_ && r != last :: r.sibling == old(r.sibling)
    ensures forall r | r in nodes && r != new_ :: r.child == old(r.child)
  {
    SetParent(nodes, new_, parent);
    SetSibling(nodes, new_, last.sibling);
    SetChild(nodes, new_, first);
    SetSibling(nodes, last, null);
  }

  /**
    Finds the place of `new_` below `root`: `parent` is the deepest resource that encloses its range, and
    `first` the lowest child of `parent` that overlaps it.  If nothing overlaps it there, it is already in.
   */
  method Descend(ghost nodes: set<Resource>, root: Resource, new_: Resource) returns (parent: Resource, first: Resource?)
    requires Valid(nodes) && root in nodes && new_ in nodes && root != new_
    requires new_.parent == null && new_.child == null
    requires new_.Range().Proper() && root.Range().Contains(new_.Range())
    modifies nodes`parent, nodes`sibling, nodes`child
    ensures Valid(nodes) && parent in nodes && parent != new_
    ensures Home(old(Abs(nodes)), root, new_.Range(), parent)
    ensures first == null ==> CanHold(old(Abs(nodes)), parent, new_.Range())
                              && Abs(nodes) == Attach(old(Abs(nodes)), parent, new_)
    ensures first != null ==> unchanged(nodes) && first in nodes && Blocks(Abs(nodes), parent, new_.Range(), first)
  {
    ghost var f := Abs(nodes);
    ghost var rank :| Ranked(f, rank);
    parent := root;
    AtOrBelowSelf(f, root);
    while true
      invariant unchanged(nodes) && parent in nodes && parent != new_ && AtOrBelow(f, parent, root)
      invariant parent.Range().Contains(new_.Range()) && (parent == root || parent.Range().Encloses(new_.Range()))
      decreases rank[parent]
    {
      first := RequestResource(nodes, parent, new_);
      if first == null {
        FreeHere(f, parent, new_.Range());
        return;
      }
      if first.start > new_.start || first.end < new_.end || first.Range() == new_.Range() {
        BlockedHere(f, parent, new_.Range(), first);
        return;
      }
      StepDown(f, rank, root, parent, first);
      parent := first;
    }
  }

  lemma StepDown(f: Forest<Resource>, rank: map<Resource, nat>, root: Resource, p: Resource, c: Resource)
    requires Closed(f) && Ranked(f, rank) && ChildOf(f, c, p) && AtOrBelow(f, p, root)
    ensures c in rank && p in rank && rank[c] < rank[p] && AtOrBelow(f, c, root)
  {
    AtOrBelowStep(f, c, root);
  }

  lemma FreeHere(f: Forest<Resource>, p: Resource, s: Span)
    requires Closed(f) && p in f.span && CanHold(f, p, s)
    ensures forall d | ChildOf(f, d, p) :: !f.span[d].Encloses(s)
  {
  }

  lemma BlockedHere(f: Forest<Resource>, p: Resource, s: Span, c: Resource)
    requires WellFormed(f) && Blocks(f, p, s, c) && s.Proper() && !f.span[c].Encloses(s)
    ensures forall d | ChildOf(f, d, p) :: !f.span[d].Encloses(s)
  {
    forall d | ChildOf(f, d, p) ensures !f.span[d].Encloses(s) {
      assert c != d ==> !f.span[c].Overlaps(f.span[d]);
    }
  }

  /**
    Inserts `new_` below `root`.  It succeeds exactly if the range fits into `root` and overlaps no resource
    of the tree partly; then `new_` goes below the deepest resource that encloses it and takes over the
    children it covers there.  Otherwise nothing changes and a resource in the way is returned.
   */
  method InsertResource(ghost nodes: set<Resource>, root: Resource, new_: Resource) returns (conflict: Resource?)
    requires Valid(nodes) && root in nodes && new_ in nodes && root != new_
    requires new_.parent == null && new_.child == null
    modifies nodes`parent, nodes`sibling, nodes`child
    ensures Valid(nodes)
    ensures conflict == root <==> !(new_.Range().Proper() && root.Range().Contains(new_.Range()))
    ensures conflict == null <==> new_.Range().Proper() && root.Range().Contains(new_.Range())
                                  && ClearOf(old(Abs(nodes)), root, new_.Range())
    ensures conflict == null ==> exists p :: Home(old(Abs(nodes)), root, new_.Range(), p)
                                             && Abs(nodes) == Adopt(old(Abs(nodes)), p, new_)
                                             && Moves(old(Abs(nodes)), Insert(root, p, new_), Abs(nodes))
    ensures conflict != null ==> unchanged(nodes)
    ensures conflict != null && conflict != root ==>
              && conflict in nodes && AtOrBelow(Abs(nodes), conflict, root)
              && conflict.Range().PartlyOverlaps(new_.Range())
  {
    hide Nested, SiblingsDisjoint, Ranked, ClearOf, Moves, Adopt;
    if new_.end < new_.start || new_.start < root.start || new_.end > root.end {
      return root;
    }
    ghost var f := Abs(nodes);
    ValidLoose(nodes, new_);
    var parent, first := Descend(nodes, root, new_);
    HomeDecides(f, root, new_.Range(), parent);
    InsertMoves(f, root, parent, new_);
    if first == null {
      AdoptWithoutChildren(f, parent, new_);
      return null;
    }
    var last, clean := WalkOverlaps(nodes, parent, first, new_);
    assert NextSibling(f, LinksOf(nodes).next, last);
    if !clean {
      PartialBelow(f, root, new_.Range(), parent, last);
      return last;
    }
    AdoptRun(nodes, parent, new_, first, last);
    return null;
  }

  lemma InsertMoves(f: Forest<Resource>, root: Resource, p: Resource, x: Resource)
    requires WellFormed(f) && Loose(f, x) && x != root && root in f.span && f.span[x].Proper() && Home(f, root, f.span[x], p)
    ensures ClearOf(f, root, f.span[x]) ==> Moves(f, Insert(root, p, x), Adopt(f, p, x))
  {
  }

  lemma PartialBelow(f: Forest<Resource>, root: Resource, s: Span, p: Resource, c: Resource)
    requires WellFormed(f) && root in f.span && s.Proper() && Home(f, root, s, p)
    requires ChildOf(f, c, p) && f.span[c].Overlaps(s) && !s.Contains(f.span[c])
    ensures AtOrBelow(f, c, root) && f.span[c].PartlyOverlaps(s) && c != root && !ClearOf(f, root, s)
  {
    AtOrBelowStep(f, c, root);
    AtOrBelowSpan(f, p, root);
    NotBelowSelf(f, root);
  }

  /**
    Grows `new_` until it can be inserted below `root`.  For a range inside `root` this always succeeds, and
    the final range is the least one around the requested range that overlaps no resource of the tree partly.
   */
  method InsertResourceExpandToFit(ghost nodes: set<Resource>, root: Resource, new_: Resource)
    requires Valid(nodes) && root in nodes && new_ in nodes && root != new_
    requires new_.parent == null ==> new_.child == null
    modifies nodes`parent, nodes`sibling, nodes`child, new_`start, new_`end
    ensures Valid(nodes)
    ensures old(new_.parent != null || !new_.Range().Proper() || !root.Range().Contains(new_.Range())) ==> unchanged(nodes)
    ensures old(new_.parent == null && new_.Range().Proper() && root.Range().Contains(new_.Range())) ==>
              && Fit(old(Abs(nodes)), root, old(new_.Range()), new_.Range())
              && (forall t | Fit(old(Abs(nodes)), root, old(new_.Range()), t) :: t.Contains(new_.Range()))
              && Placed(old(Abs(nodes)), root, new_, new_.Range(), Abs(nodes))
              && GrownIn(old(Abs(nodes)), root, new_, new_.Range(), Abs(nodes))
  {
    hide Placed, Nested, SiblingsDisjoint, Ranked, Threaded, GrownIn, ClearOf;
    if new_.parent != null {
      return;
    }
    if new_.end < new_.start || new_.start < root.start || new_.end > root.end {
      return;
    }
    ghost var f := Abs(nodes);
    ValidLoose(nodes, new_);
    GrowAndInsert(nodes, root, new_);
    PlacedIsGrownIn(f, root, new_, new_.Range(), Abs(nodes));
  }

  /** `x`, outside the tree, is given the range `s` and then inserted. */
  ghost predicate GrownIn(f: Forest<Resource>, root: Resource, x: Resource, s: Span, g: Forest<Resource>) {
    && Moves(f, Resize(x, s), Respan(f, x, s))
    && exists p | p in f.span :: Moves(Respan(f, x, s), Insert(root, p, x), g)
  }

  lemma PlacedIsGrownIn(f: Forest<Resource>, root: Resource, x: Resource, s: Span, g: Forest<Resource>)
    requires WellFormed(f) && Loose(f, x) && x != root && root in f.span && s.Proper() && Placed(f, root, x, s, g)
    ensures GrownIn(f, root, x, s, g)
  {
    hide Nested, SiblingsDisjoint, Ranked;
    var h := Respan(f, x, s);
    LooseResize(f, x, s);
    LooseClearOf(f, root, x, s);
    var p :| p in f.span && Home(h, root, s, p) && g == Adopt(h, p, x);
    assert Moves(h, Insert(root, p, x), g);
  }

  method GrowAndInsert(ghost nodes: set<Resource>, root: Resource, new_: Resource)
    requires Valid(nodes) && root in nodes && new_ in nodes && root != new_
    requires new_.parent == null && new_.child == null
    requires new_.Range().Proper() && root.Range().Contains(new_.Range())
    modifies nodes`parent, nodes`sibling, nodes`child, new_`start, new_`end
    ensures Valid(nodes)
    ensures Fit(old(Abs(nodes)), root, old(new_.Range()), new_.Range())
    ensures forall t | Fit(old(Abs(nodes)), root, old(new_.Range()), t) :: t.Contains(new_.Range())
    ensures Placed(old(Abs(nodes)), root, new_, new_.Range(), Abs(nodes))
  {
    ghost var f, l, base := Abs(nodes), LinksOf(nodes), new_.Range();
    ValidLoose(nodes, new_);
    assert f == Respan(f, new_, base);
    var done := false;
    while !done
      invariant !done ==> Growing(nodes, f, l, root, new_)
      invariant new_.Range().Contains(base) && root.Range().Contains(new_.Range())
      invariant forall t | Fit(f, root, base, t) :: t.Contains(new_.Range())
      invariant done ==> Valid(nodes) && Placed(f, root, new_, new_.Range(), Abs(nodes))
      decreases !done, root.end - root.start - (new_.end - new_.start)
    {
      done := TryInsert(nodes, f, l, root, base, new_);
    }
  }

  ghost predicate Growing(nodes: set<Resource>, f: Forest<Resource>, l: Links<Resource>, root: Resource, x: Resource)
    reads nodes, x
  {
    && WellFormed(f) && Threaded(f, l) && Loose(f, x) && x !in l.first && root in f.span && root != x
    && Abs(nodes) == Respan(f, x, x.Range()) && LinksOf(nodes) == l
  }

  /** `g` is `f` with `x`, of range `s`, inserted below `root`. */
  ghost predicate Placed(f: Forest<Resource>, root: Resource, x: Resource, s: Span, g: Forest<Resource>)
  {
    && Closed(Respan(f, x, s)) && ClearOf(f, root, s)
    && exists p | p in f.span :: Home(Respan(f, x, s), root, s, p) && g == Adopt(Respan(f, x, s), p, x)
  }

  method TryInsert(ghost nodes: set<Resource>, ghost f: Forest<Resource>, ghost l: Links<Resource>,
                   root: Resource, ghost base: Span, new_: Resource) returns (done: bool)
    requires root in nodes && new_ in nodes && Growing(nodes, f, l, root, new_)
    requires base.Proper() && new_.Range().Contains(base) && root.Range().Contains(new_.Range())
    requires forall t | Fit(f, root, base, t) :: t.Contains(new_.Range())
    modifies nodes`parent, nodes`sibling, nodes`child, new_`start, new_`end
    ensures done ==> Valid(nodes) && new_.Range() == old(new_.Range()) && Placed(f, root, new_, new_.Range(), Abs(nodes))
    ensures !done ==> Growing(nodes, f, l, root, new_)
    ensures !done ==> new_.end - new_.start > old(new_.end - new_.start)
    ensures new_.Range().Contains(base) && root.Range().Contains(new_.Range())
    ensures forall t | Fit(f, root, base, t) :: t.Contains(new_.Range())
  {
    GrownIsValid(nodes, f, l, root, new_);
    var conflict := InsertResource(nodes, root, new_);
    if conflict == null {
      return true;
    }
    GrowOver(f, root, base, new_.Range(), conflict);
    Grow(nodes, f, new_, conflict);
    return false;
  }

  lemma GrownIsValid(nodes: set<Resource>, f: Forest<Resource>, l: Links<Resource>, root: Resource, x: Resource)
    requires Growing(nodes, f, l, root, x)
    ensures Valid(nodes) && x.parent == null && x.child == null
    ensures f.span.Keys == nodes && forall c | c in nodes && c != x :: f.span[c] == c.Range()
    ensures ClearOf(Abs(nodes), root, x.Range()) <==> ClearOf(f, root, x.Range())
    ensures forall c | c in f.span && AtOrBelow(Abs(nodes), c, root) :: AtOrBelow(f, c, root) && c != x
  {
    LooseRespan(f, l, x, x.Range());
    LooseClearOf(f, root, x, x.Range());
    assert Abs(nodes).span.Keys == nodes && x !in Abs(nodes).up && x !in LinksOf(nodes).first;
    assert forall c | c in nodes :: Abs(nodes).span[c] == c.Range();
  }

  method Grow(ghost nodes: set<Resource>, ghost f: Forest<Resource>, x: Resource, conflict: Resource)
    requires x in nodes && Abs(nodes) == Respan(f, x, x.Range())
    modifies x`start, x`end
    ensures x.Range() == old(x.Range()).Join(old(conflict.Range()))
    ensures Abs(nodes) == Respan(f, x, x.Range()) && LinksOf(nodes) == old(LinksOf(nodes))
  {
    var start, end := x.start, x.end;
    if conflict.start < start {
      start := conflict.start;
    }
    if conflict.end > end {
      end := conflict.end;
    }
    SetRange(nodes, x, start, end);
    assert Abs(nodes).span == f.span[x := x.Range()];
  }

  lemma {:induction false} ReachesRespan(f: Forest<Resource>, x: Resource, s: Span, c: Resource, n: nat, a: Resource)
    ensures Reaches(Respan(f, x, s), c, n, a) <==> Reaches(f, c, n, a)
  {
    if n > 0 && c in f.up {
      ReachesRespan(f, x, s, f.up[c], n - 1, a);
    }
  }

  lemma AtOrBelowRespan(f: Forest<Resource>, x: Resource, s: Span, c: Resource, a: Resource)
    ensures AtOrBelow(Respan(f, x, s), c, a) <==> AtOrBelow(f, c, a)
  {
    if AtOrBelow(f, c, a) {
      var n: nat :| Reaches(f, c, n, a);
      ReachesRespan(f, x, s, c, n, a);
    }
    if AtOrBelow(Respan(f, x, s), c, a) {
      var n: nat :| Reaches(Respan(f, x, s), c, n, a);
      ReachesRespan(f, x, s, c, n, a);
    }
  }

  /** The range of a resource outside the tree is of no consequence to the tree. */
  lemma LooseRespan(f: Forest<Resource>, l: Links<Resource>, x: Resource, s: Span)
    requires WellFormed(f) && Threaded(f, l) && Loose(f, x)
    ensures WellFormed(Respan(f, x, s)) && Threaded(Respan(f, x, s), l) && Loose(Respan(f, x, s), x)
  {
    var rank :| Ranked(f, rank);
    assert Ranked(Respan(f, x, s), rank);
    WellFormedDistinctStarts(f);
    RespanKeepsThreaded(f, l, x, s);
  }

  lemma LooseClearOf(f: Forest<Resource>, root: Resource, x: Resource, s: Span)
    requires Loose(f, x) && root in f.span && root != x
    ensures ClearOf(Respan(f, x, s), root, s) <==> ClearOf(f, root, s)
    ensures forall c | c in f.span && AtOrBelow(Respan(f, x, s), c, root) :: AtOrBelow(f, c, root) && c != x
  {
    AtOrBelowStep(f, x, root);
    forall c | c in f.span
      ensures AtOrBelow(Respan(f, x, s), c, root) <==> AtOrBelow(f, c, root)
      ensures AtOrBelow(f, c, root) ==> c != x
    {
      AtOrBelowRespan(f, x, s, c, root);
    }
  }

  lemma GrowOver(f: Forest<Resource>, root: Resource, base: Span, s: Span, c: Resource)
    requires WellFormed(f) && root in f.span && c in f.span && AtOrBelow(f, c, root)
    requires s.Contains(base) && base.Proper() && f.span[root].Contains(s) && f.span[c].PartlyOverlaps(s)
    requires forall t | Fit(f, root, base, t) :: t.Contains(s)
    ensures f.span[root].Contains(s.Join(f.span[c])) && s.Join(f.span[c]).Contains(base)
    ensures s.Join(f.span[c]).hi - s.Join(f.span[c]).lo > s.hi - s.lo
    ensures forall t | Fit(f, root, base, t) :: t.Contains(s.Join(f.span[c]))
  {
    AtOrBelowSpan(f, c, root);
    forall t | Fit(f, root, base, t) ensures t.Contains(s.Join(f.span[c])) {
      ConflictInsideEveryFit(f, root, s, c, t);
    }
  }
}
