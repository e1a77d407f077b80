/** Runs of additions to and deletions from the index of mapped ranges: what the reference counts count. */
module MemMapRuns {
  import opened IntervalTree
  import opened MemMap

  ghost predicate Sound(s: set<Range>) {
    && (forall x | x in s :: x.lo < x.hi && x.data.refs > 0)
    && forall x, y, a: nat {:trigger x.Has(a), y.Has(a)} | x in s && y in s && x.Has(a) && y.Has(a) :: x == y
  }

  /** `p` and `q` lie in the same entry. */
  ghost predicate Together(s: set<Range>, p: nat, q: nat) {
    exists x :: x in s && x.Has(p) && x.Has(q)
  }

  ghost predicate Mapped(s: set<Range>, p: nat) {
    exists x :: x in s && x.Has(p)
  }

  /**
    Additions less deletions that landed in the entry around `p`, counted from the history alone; an entry that is
    new, or is left over when the last reference of a larger one goes, starts at one.
   */
  ghost function Net(states: seq<set<Range>>, events: seq<Event>, k: nat, p: nat): int
    requires k < |states| == |events| + 1
  {
    if k == 0 then 0
    else
      var n, s, e := Net(states, events, k - 1, p), states[k - 1], events[k - 1];
      if states[k] == s then n
      else match e
        case Add(pa, _, sz, _) =>
          if Together(s, pa, p) then n + 1 else if !Mapped(s, pa) && pa <= p < pa + sz then 1 else n
        case Del(pa, _, sz) =>
          if !Together(s, pa, p) then n
          else if n > 1 then n - 1
          else if pa <= p < pa + sz then 0 else 1
  }

  /** The reference count of the entry around `p`, or 0 if there is none. */
  ghost function RefsAt(s: set<Range>, p: nat): nat {
    if Mapped(s, p) then
      var x :| x in s && x.Has(p);
      x.data.refs
    else 0
  }

  lemma RefsAtIs(s: set<Range>, p: nat, x: Range)
    requires Sound(s) && x in s && x.Has(p)
    ensures RefsAt(s, p) == x.data.refs
  {
  }

  // ---------------------------------------------------------------- additions

  /** Entries can be exchanged for others that lie inside them and apart from each other. */
  lemma ReplaceKeepsSound(s: set<Range>, x: Range, new_: set<Range>)
    requires Sound(s) && Sound(new_) && x in s && forall y, a: nat {:trigger y.Has(a)} | y in new_ && y.Has(a) :: x.Has(a)
    ensures Sound(s - {x} + new_)
  {
    var s' := s - {x} + new_;
    forall y, z, a: nat | y in s' && z in s' && y.Has(a) && z.Has(a) ensures y == z {
      assert y in new_ || z in new_ ==> x.Has(a);
    }
  }

  lemma AddKeepsSound(s: set<Range>, pa: nat, va: nat, sz: nat, flags: nat, s': set<Range>)
    requires Sound(s) && sz > 0 && Added(s, pa, va, sz, flags, s')
    ensures Sound(s')
  {
    if Mapped(s, pa) {
      var x :| x in s && x.Has(pa) && s' == s - {x} + {x.(data := x.data.(refs := x.data.refs + 1))};
      ReplaceKeepsSound(s, x, {x.(data := x.data.(refs := x.data.refs + 1))});
    } else {
      NewKeepsSound(s, Item(pa, pa + sz, Entry(va, flags, 1)));
    }
  }

  lemma NewKeepsSound(s: set<Range>, n: Range)
    requires Sound(s) && n.lo < n.hi && n.data.refs > 0 && forall y | y in s :: !y.Meets(n.lo, n.hi)
    ensures Sound(s + {n})
  {
    forall y, a: nat | y in s && y.Has(a) ensures !n.Has(a) {
      assert !y.Meets(n.lo, n.hi);
    }
  }

  lemma AddCounts(s: set<Range>, pa: nat, va: nat, sz: nat, flags: nat, s': set<Range>, p: nat)
    requires Sound(s) && Sound(s') && sz > 0 && Added(s, pa, va, sz, flags, s')
    ensures RefsAt(s', p) ==
            if Together(s, pa, p) then RefsAt(s, p) + 1 else if !Mapped(s, pa) && pa <= p < pa + sz then 1 else RefsAt(s, p)
  {
    if Mapped(s, pa) {
      var x :| x in s && x.Has(pa) && s' == s - {x} + {x.(data := x.data.(refs := x.data.refs + 1))};
      if x.Has(p) {
        RefsAtIs(s, p, x);
        RefsAtIs(s', p, x.(data := x.data.(refs := x.data.refs + 1)));
      } else {
        Elsewhere(s, x, {x.(data := x.data.(refs := x.data.refs + 1))}, s', p);
      }
    } else {
      var n := Item(pa, pa + sz, Entry(va, flags, 1));
      if n.Has(p) {
        RefsAtIs(s', p, n);
      } else {
        Elsewhere(s, n, {n}, s', p);
      }
    }
  }

  /** Outside the entries that are exchanged nothing changes. */
  lemma Elsewhere(s: set<Range>, x: Range, new_: set<Range>, s': set<Range>, p: nat)
    requires Sound(s) && Sound(s') && s' == s - {x} + new_ && !x.Has(p) && forall y | y in new_ :: !y.Has(p)
    ensures RefsAt(s', p) == RefsAt(s, p)
  {
    if y :| y in s && y.Has(p) {
      assert y in s';
      RefsAtIs(s, p, y);
      RefsAtIs(s', p, y);
    } else {
      assert !Mapped(s', p);
    }
  }

  // ---------------------------------------------------------------- deletions

  lemma ResiduesAre(x: Range, pa: nat, va: nat, sz: nat, y: Range)
    requires x.Has(pa) && Inside(x, pa, va, sz) && InStep(x, pa, va) && sz > 0 && y in Residues(x, pa, sz)
    ensures y.lo < y.hi && y.data.refs == 1
    ensures forall a: nat | y.Has(a) :: x.Has(a) && !(pa <= a < pa + sz)
  {
  }

  lemma ResidueAround(x: Range, pa: nat, va: nat, sz: nat, a: nat) returns (y: Range)
    requires x.Has(pa) && Inside(x, pa, va, sz) && InStep(x, pa, va) && x.Has(a) && !(pa <= a < pa + sz)
    ensures y in Residues(x, pa, sz) && y.Has(a)
  {
    if a < pa {
      y := Item(x.lo, x.lo + (pa - x.lo), Entry(x.data.va, x.data.flags, 1));
    } else {
      y := Item(pa + sz, pa + sz + (x.hi - (pa + sz)), Entry(x.data.va + (pa + sz - x.lo), x.data.flags, 1));
    }
  }

  lemma DelKeepsSound(s: set<Range>, x: Range, pa: nat, va: nat, sz: nat, s': set<Range>)
    requires Sound(s) && x in s && x.Has(pa) && sz > 0 && Deleted(s, x, pa, va, sz, s')
    ensures Sound(s')
  {
    if x.data.refs == 1 {
      forall y, a: nat | y in Residues(x, pa, sz) && y.Has(a) ensures x.Has(a) {
        ResiduesAre(x, pa, va, sz, y);
      }
      ReplaceKeepsSound(s, x, Residues(x, pa, sz));
    } else {
      ReplaceKeepsSound(s, x, {x.(data := x.data.(refs := x.data.refs - 1))});
    }
  }

  lemma DelCounts(s: set<Range>, x: Range, pa: nat, va: nat, sz: nat, s': set<Range>, p: nat)
    requires Sound(s) && Sound(s') && x in s && x.Has(pa) && sz > 0 && Deleted(s, x, pa, va, sz, s')
    ensures Together(s, pa, p) <==> x.Has(p)
    ensures RefsAt(s', p) == if !x.Has(p) then RefsAt(s, p)
                             else if RefsAt(s, p) > 1 then RefsAt(s, p) - 1
                             else if pa <= p < pa + sz then 0 else 1
  {
    if x.Has(p) {
      RefsAtIs(s, p, x);
      if x.data.refs > 1 {
        RefsAtIs(s', p, x.(data := x.data.(refs := x.data.refs - 1)));
      } else {
        LastCounts(s, x, pa, va, sz, s', p);
      }
    } else if x.data.refs > 1 {
      Elsewhere(s, x, {x.(data := x.data.(refs := x.data.refs - 1))}, s', p);
    } else {
      forall y | y in Residues(x, pa, sz) ensures !y.Has(p) {
        ResiduesAre(x, pa, va, sz, y);
      }
      Elsewhere(s, x, Residues(x, pa, sz), s', p);
    }
  }

  lemma LastCounts(s: set<Range>, x: Range, pa: nat, va: nat, sz: nat, s': set<Range>, p: nat)
    requires Sound(s) && Sound(s') && x in s && x.Has(pa) && x.Has(p) && sz > 0 && x.data.refs == 1 && Deleted(s, x, pa, va, sz, s')
    ensures RefsAt(s', p) == if pa <= p < pa + sz then 0 else 1
  {
    if pa <= p < pa + sz {
      forall y | y in s' ensures !y.Has(p) {
        if y in Residues(x, pa, sz) {
          ResiduesAre(x, pa, va, sz, y);
        }
      }
    } else {
      var y := ResidueAround(x, pa, va, sz, p);
      ResiduesAre(x, pa, va, sz, y);
      RefsAtIs(s', p, y);
    }
  }

  lemma SoundIsAway(s: set<Range>, x: Range)
    requires Sound(s) && x in s
    ensures AwayFrom(s - {x}, x)
  {
    forall y | y in s - {x} ensures y.hi <= x.lo || x.hi <= y.lo {
      var a := if y.lo < x.lo then x.lo else y.lo;
      assert y.Has(a) && x.Has(a) ==> y == x;
    }
  }

  /** What the history says of the count at `p` after the deletion of the last reference. */
  ghost function LeftOver(s: set<Range>, x: Range, pa: nat, sz: nat, p: nat): nat {
    if !x.Has(p) then RefsAt(s, p) else if pa <= p < pa + sz then 0 else 1
  }

  /** The deletion of a last reference leaves the counts that the history says exactly if it is in step. */
  lemma LastCountsExactly(s: set<Range>, x: Range, pa: nat, va: nat, sz: nat, s': set<Range>)
    requires Sound(s) && Sound(s') && x in s && x.Has(pa) && sz > 0 && x.data.refs == 1
    requires Inside(x, pa, va, sz) && Replaced(s, x, pa, va, sz, s')
    ensures InStep(x, pa, va) <==> forall p: nat :: RefsAt(s', p) == LeftOver(s, x, pa, sz, p)
  {
    hide RefsAt, Sound, Added, OnlyGone;
    SoundIsAway(s, x);
    if InStep(x, pa, va) {
      RightAdded(s - {x}, x, pa, va, sz, s');
      forall p: nat ensures RefsAt(s', p) == LeftOver(s, x, pa, sz, p) {
        assert Deleted(s, x, pa, va, sz, s');
        DelCounts(s, x, pa, va, sz, s', p);
        if x.Has(p) {
          RefsAtIs(s, p, x);
        }
      }
    } else {
      var p := OutOfStepAt(s, x, pa, va, sz, s');
      assert RefsAt(s', p) != LeftOver(s, x, pa, sz, p);
    }
  }

  lemma OutOfStepAt(s: set<Range>, x: Range, pa: nat, va: nat, sz: nat, s': set<Range>) returns (p: nat)
    requires AwayFrom(s - {x}, x) && Sound(s') && x in s && x.Has(pa) && sz > 0
    requires Inside(x, pa, va, sz) && Replaced(s, x, pa, va, sz, s') && !InStep(x, pa, va)
    ensures RefsAt(s', p) != LeftOver(s, x, pa, sz, p)
  {
    var left := va - x.data.va;
    if left > pa - x.lo {
      p := pa;
      var y := Item(x.lo, x.lo + left, Entry(x.data.va, x.data.flags, 1));
      var z :| z in s' && z.lo == y.lo && z.hi == y.hi;
      assert z.Has(pa);
      RefsAtIs(s', pa, z);
    } else {
      p := x.lo + left;
      assert forall z | z in s' :: !z.Has(p);
    }
  }

  // --------------------------------------------------------------------- runs

  ghost predicate Run(states: seq<set<Range>>, events: seq<Event>) {
    && |states| == |events| + 1 && states[0] == {}
    && forall i | 0 <= i < |events| :: Step(states[i], events[i], states[i + 1])
  }

  /** In every run the reference count of an entry is the number of additions less deletions that landed in it. */
  lemma {:induction false} RefsAreNet(states: seq<set<Range>>, events: seq<Event>, k: nat, p: nat)
    requires Run(states, events) && k < |states|
    ensures Sound(states[k]) && RefsAt(states[k], p) == Net(states, events, k, p)
  {
    hide RefsAt, Sound, Together, Mapped, Added, Deleted;
    if k == 0 {
      NothingMapped(p);
    } else {
      RefsAreNet(states, events, k - 1, p);
      var s, e, s' := states[k - 1], events[k - 1], states[k];
      assert Step(s, e, s');
      if s' != s {
        match e
        case Add(pa, va, sz, flags) =>
          AddKeepsSound(s, pa, va, sz, flags, s');
          AddCounts(s, pa, va, sz, flags, s', p);
        case Del(pa, va, sz) =>
          var x :| x in s && x.Has(pa) && Deleted(s, x, pa, va, sz, s');
          DelKeepsSound(s, x, pa, va, sz, s');
          DelCounts(s, x, pa, va, sz, s', p);
      }
    }
  }

  lemma NothingMapped(p: nat)
    ensures Sound({}) && RefsAt({}, p) == 0
  {
  }
}
