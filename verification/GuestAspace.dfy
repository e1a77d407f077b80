/** The regions of a guest: lookup through aliases, insertion, and translation to host addresses. */
module GuestAspace {
  import opened Options
  import Bits
  import opened IntervalTree
  import opened GuestMapping

  const MANIFEST: set<Flag> := {Real, Virtual, Alias}

  /** Where the alias `x` leads the address `a`. */
  function Aphys(x: Range, a: nat): nat
    requires x.lo <= a
  {
    x.data.aphys + (a - x.lo)
  }

  /** Starting from `a`, the aliases in `path` are followed one after the other, and `b` is reached. */
  ghost predicate Via(s: set<Range>, need: set<Flag>, a: nat, path: seq<Range>, b: nat)
    decreases |path|
  {
    if path == [] then a == b
    else
      && path[0] in s && path[0].Has(a) && need <= path[0].data.flags && Alias in path[0].data.flags
      && Via(s, need, Aphys(path[0], a), path[1..], b)
  }

  /** The region `x` holds `a` and has the flags that are needed. */
  ghost predicate Lies(s: set<Range>, need: set<Flag>, a: nat, x: Range) {
    x in s && x.Has(a) && need <= x.data.flags
  }

  ghost predicate Nowhere(s: set<Range>, need: set<Flag>, a: nat) {
    forall x | x in s :: !Lies(s, need, a, x)
  }

  /** Following an alias always leads to a region of lower rank: there is no cycle of aliases. */
  ghost predicate AliasRanked(s: set<Range>, rank: map<Range, nat>) {
    && rank.Keys == s
    && forall x, y, a: nat {:trigger y.Has(Aphys(x, a))} |
         x in s && y in s && Alias in x.data.flags && x.Has(a) && y.Has(Aphys(x, a)) :: rank[y] < rank[x]
  }

  ghost predicate Acyclic(s: set<Range>) {
    exists rank :: AliasRanked(s, rank)
  }

  lemma {:induction false} ViaAppend(s: set<Range>, need: set<Flag>, a: nat, path: seq<Range>, b: nat, x: Range)
    requires Via(s, need, a, path, b) && Lies(s, need, b, x) && Alias in x.data.flags
    ensures Via(s, need, a, path + [x], Aphys(x, b))
    decreases |path|
  {
    if path == [] {
      assert (path + [x])[1..] == [];
    } else {
      ViaAppend(s, need, Aphys(path[0], a), path[1..], b, x);
      assert (path + [x])[1..] == path[1..] + [x];
    }
  }

  /** `k` addresses further on, no alias on the way has ended yet. */
  ghost predicate StaysIn(path: seq<Range>, a: nat, k: nat) {
    path == [] || (path[0].lo <= a && a + k < path[0].hi && StaysIn(path[1..], Aphys(path[0], a), k))
  }

  /** The address `k` further on takes the same way exactly as long as it stays inside every alias passed. */
  lemma {:induction false} AliasWindow(s: set<Range>, need: set<Flag>, a: nat, path: seq<Range>, b: nat, k: nat)
    requires Via(s, need, a, path, b)
    ensures Via(s, need, a + k, path, b + k) <==> StaysIn(path, a, k)
    decreases |path|
  {
    if path != [] {
      AliasWindow(s, need, Aphys(path[0], a), path[1..], b, k);
    }
  }

  // What an alias means, in terms of its fields.

  /** A region of the tree that stands for the guest addresses from `aphys` on. */
  predicate AliasAt(s: set<Range>, need: set<Flag>, a: nat, x: Range) {
    x in s && x.Has(a) && need <= x.data.flags && Alias in x.data.flags
  }

  /** From an address of an alias the way goes on at the same distance behind the address the alias stands for. */
  lemma ViaAlias(s: set<Range>, need: set<Flag>, a: nat, path: seq<Range>, b: nat, x: Range)
    requires Disjoint(s) && AliasAt(s, need, a, x)
    ensures path != [] ==> (Via(s, need, a, path, b) <==>
                            path[0] == x && Via(s, need, x.data.aphys + (a - x.lo), path[1..], b))
  {
  }

  /** Where a region is that is no alias, every way ends. */
  lemma ViaEnds(s: set<Range>, need: set<Flag>, a: nat, path: seq<Range>, b: nat, y: Range)
    requires Disjoint(s) && y in s && y.Has(a) && Alias !in y.data.flags && Via(s, need, a, path, b)
    ensures path == [] && b == a
  {
  }

  /** An address of an alias leads where the address that it stands for leads. */
  lemma AliasLeads(s: set<Range>, a: nat, path: seq<Range>, b: nat, y: Range, x: Range)
    requires Disjoint(s) && AliasAt(s, {Memory}, a, x)
    ensures Leads(s, a, path, b, y) <==>
            path != [] && path[0] == x && Leads(s, x.data.aphys + (a - x.lo), path[1..], b, y)
  {
    ViaAlias(s, {Memory}, a, path, b, x);
    if path == [] && Lies(s, {Memory}, a, y) {
      assert y == x;
    }
  }

  /** So the one is served exactly if the other is, and with the same host address. */
  lemma AliasServes(s: set<Range>, a: nat, x: Range)
    requires Disjoint(s) && AliasAt(s, {Memory}, a, x)
    ensures var c := x.data.aphys + (a - x.lo);
            && (Resolvable(s, a) <==> Resolvable(s, c))
            && forall path, h :: Serves(s, a, path, h) <==> path != [] && path[0] == x && Serves(s, c, path[1..], h)
  {
    hide Leads;
    var c := x.data.aphys + (a - x.lo);
    forall path, b, y ensures Leads(s, a, path, b, y) <==> path != [] && path[0] == x && Leads(s, c, path[1..], b, y) {
      AliasLeads(s, a, path, b, y, x);
    }
    if path, b, y :| Leads(s, c, path, b, y) {
      assert ([x] + path)[1..] == path;
      assert Leads(s, a, [x] + path, b, y);
    }
  }

  /** There is one way, and so one host address. */
  lemma {:induction false} LeadsOnce(s: set<Range>, a: nat, path: seq<Range>, b: nat, y: Range, p: seq<Range>, c: nat, z: Range)
    requires Disjoint(s) && Leads(s, a, path, b, y) && Leads(s, a, p, c, z)
    ensures path == p && b == c && y == z
    decreases |path|
  {
    if path == [] {
      assert y.Has(a);
      ViaEnds(s, {Memory}, a, p, c, y);
    } else if p == [] {
      ViaEnds(s, {Memory}, a, path, b, z);
    } else {
      assert path[0] == p[0];
      LeadsOnce(s, Aphys(path[0], a), path[1..], b, y, p[1..], c, z);
    }
  }

  /** Memory is served at its own host address, and an alias of it at the host address of what it stands for. */
  lemma ServedAt(s: set<Range>, a: nat, path: seq<Range>, h: int, x: Range, y: Range)
    requires Disjoint(s) && y in s && Memory in y.data.flags && Alias !in y.data.flags && Serves(s, a, path, h)
    ensures y.Has(a) ==> path == [] && h == HostOf(y, a)
    ensures AliasAt(s, {Memory}, a, x) && y.Has(x.data.aphys + (a - x.lo)) ==>
              path == [x] && h == HostOf(y, x.data.aphys + (a - x.lo))
  {
    hide HostOf;
    var b, z :| Leads(s, a, path, b, z) && h == HostOf(z, b);
    if y.Has(a) {
      LeadsOnce(s, a, path, b, z, [], a, y);
    }
    if AliasAt(s, {Memory}, a, x) && y.Has(x.data.aphys + (a - x.lo)) {
      var c := x.data.aphys + (a - x.lo);
      AliasLeads(s, a, path, b, z, x);
      LeadsOnce(s, c, path[1..], b, z, [], c, y);
    }
  }

  lemma MemoryIsResolvable(s: set<Range>, a: nat, x: Range, y: Range)
    requires Disjoint(s) && y in s && Memory in y.data.flags && Alias !in y.data.flags
    ensures y.Has(a) ==> Resolvable(s, a)
    ensures AliasAt(s, {Memory}, a, x) && y.Has(x.data.aphys + (a - x.lo)) ==> Resolvable(s, a)
  {
    if y.Has(a) {
      assert Leads(s, a, [], a, y);
    }
    if AliasAt(s, {Memory}, a, x) && y.Has(x.data.aphys + (a - x.lo)) {
      assert Leads(s, x.data.aphys + (a - x.lo), [], x.data.aphys + (a - x.lo), y);
      AliasServes(s, a, x);
    }
  }

  /** Where an alias stands for an address of a region that is none, the way is through it to that region. */
  lemma ThroughAlias(s: set<Range>, need: set<Flag>, flags: set<Flag>, a: nat, path: seq<Range>, b: nat, x: Range, y: Range)
    requires Disjoint(s) && AliasAt(s, need, a, x) && Via(s, need, a, path, b)
    requires y in s && y.Has(x.data.aphys + (a - x.lo)) && Alias !in y.data.flags && flags <= y.data.flags
    ensures path == [] ==> AliasAt(s, need, b, x)
    ensures path != [] ==> path == [x] && Lies(s, flags, b, y)
  {
    ViaAlias(s, need, a, path, b, x);
    if path != [] {
      ViaEnds(s, need, x.data.aphys + (a - x.lo), path[1..], b, y);
    }
  }

  class Aspace {
    var memTree: Tree<Region>
    var ioTree: Tree<Region>

    ghost predicate Valid()
      reads this
    {
      && Ordered(memTree) && Ordered(ioTree)
      && (forall x | x in Items(memTree) :: Mapped(x)) && (forall x | x in Items(ioTree) :: Mapped(x))
    }

    ghost function Regions(io: bool): set<Range>
      reads this
    {
      if io then Items(ioTree) else Items(memTree)
    }

    method Lookup(io: bool, need: set<Flag>, a: nat) returns (r: Option<Range>)
      requires Valid()
      ensures r.Some? ==> Lies(Regions(io), need, a, r.value)
      ensures r.None? ==> Nowhere(Regions(io), need, a)
      ensures r.Some? ==> forall x | x in Regions(io) && x.Has(a) :: x == r.value
    {
      r := Find(if io then ioTree else memTree, a);
      if r.Some? && !(need <= r.value.data.flags) {
        r := None;
      }
    }

    /**
      The region that holds the address; with `resolve`, aliases are followed until they end.  `path` are the
      aliases passed, and `b` is the address that is looked up in the end.
     */
    method FindRegion(a: nat, flags: set<Flag>, resolve: bool) returns (r: Option<Range>, ghost path: seq<Range>, ghost b: nat)
      requires Valid() && Acyclic(Regions(Io in flags))
      ensures Via(Regions(Io in flags), flags - MANIFEST, a, path, b)
      ensures !resolve ==> path == []
      ensures r.Some? ==> r.value in Regions(Io in flags) && flags <= r.value.data.flags && (!resolve ==> r.value.Has(a))
      ensures r.Some? ==> Lies(Regions(Io in flags), flags, b, r.value)
                          && (resolve ==> Alias !in r.value.data.flags)
                          && forall x | x in Regions(Io in flags) && x.Has(b) :: x == r.value
      ensures r.None? ==> forall x | x in Regions(Io in flags) && (resolve ==> Alias !in x.data.flags) ::
                            !Lies(Regions(Io in flags), flags, b, x)
      ensures r.None? && resolve ==> forall x | x in Regions(Io in flags) :: !AliasAt(Regions(Io in flags), flags - MANIFEST, b, x)
      ensures resolve ==>
                forall x, y | && AliasAt(Regions(Io in flags), flags - MANIFEST, a, x) && y in Regions(Io in flags)
                              && y.Has(x.data.aphys + (a - x.lo)) && flags <= y.data.flags && Alias !in y.data.flags ::
                  r == Options.Some(y) && path == [x]
    {
      hide Ordered, Items, Mapped, Acyclic, Via;
      r, path, b := Follow(a, flags, resolve);
      ghost var s, need := Regions(Io in flags), flags - MANIFEST;
      OrderedDisjoint(if Io in flags then ioTree else memTree);
      forall x, y | && resolve && AliasAt(s, need, a, x) && y in s && y.Has(x.data.aphys + (a - x.lo))
                    && flags <= y.data.flags && Alias !in y.data.flags
        ensures r == Options.Some(y) && path == [x]
      {
        ThroughAlias(s, need, flags, a, path, b, x, y);
      }
    }

    method Follow(a: nat, flags: set<Flag>, resolve: bool) returns (r: Option<Range>, ghost path: seq<Range>, ghost b: nat)
      requires Valid() && Acyclic(Regions(Io in flags))
      ensures Via(Regions(Io in flags), flags - MANIFEST, a, path, b)
      ensures !resolve ==> path == [] && b == a
      ensures r.Some? ==> Lies(Regions(Io in flags), flags, b, r.value)
                          && (resolve ==> Alias !in r.value.data.flags)
                          && forall x | x in Regions(Io in flags) && x.Has(b) :: x == r.value
      ensures r.None? ==> forall x | x in Regions(Io in flags) && (resolve ==> Alias !in x.data.flags) ::
                            !Lies(Regions(Io in flags), flags, b, x)
      ensures r.None? && resolve ==> forall x | x in Regions(Io in flags) :: !AliasAt(Regions(Io in flags), flags - MANIFEST, b, x)
    {
      hide AliasRanked, Mapped, Ordered, Via, Items;
      var io, need, addr := Io in flags, flags - MANIFEST, a;
      ghost var s := Regions(io);
      ghost var rank :| AliasRanked(s, rank);
      path, b := [], a;
      assert Via(s, need, a, [], a) by { ViaNone(s, need, a); }
      r := Lookup(io, need, addr);
      if r.None? {
        return;
      }
      if resolve {
        while Alias in r.value.data.flags
          invariant r.Some? && Lies(s, need, addr, r.value) && forall x | x in s && x.Has(addr) :: x == r.value
          invariant addr == b && Via(s, need, a, path, b)
          decreases RankOf(s, rank, r.value)
        {
          var x := r.value;
          ViaAppend(s, need, a, path, b, x);
          addr := Aphys(x, addr);
          path, b := path + [x], addr;
          r := Lookup(io, need, addr);
          if r.None? {
            return;
          }
          RankFalls(s, rank, x, r.value);
        }
      }
      if !(flags * MANIFEST <= r.value.data.flags) {
        r := None;
      }
    }

    /** Is there a region in the way? */
    method IsOverlapping(x: Range) returns (r: Option<Range>)
      requires Valid() && x.lo < x.hi
      ensures r.Some? ==> r.value in Regions(Io in x.data.flags) && r.value.Meets(x.lo, x.hi)
      ensures r.None? ==> forall y | y in Regions(Io in x.data.flags) :: !y.Meets(x.lo, x.hi)
    {
      r := FindMeeting(if Io in x.data.flags then ioTree else memTree, x.lo, x.hi);
    }

    /** Puts a region into its tree, unless it overlaps one that is there. */
    method InsertRegion(x: Range) returns (ok: bool)
      requires Valid() && Mapped(x)
      modifies this
      ensures Valid()
      ensures ok <==> forall y | y in old(Regions(Io in x.data.flags)) :: !y.Meets(x.lo, x.hi)
      ensures Regions(Io in x.data.flags) == old(Regions(Io in x.data.flags)) + if ok then {x} else {}
      ensures Regions(Io !in x.data.flags) == old(Regions(Io !in x.data.flags))
    {
      hide Ordered, Items, Insert;
      var io := Io in x.data.flags;
      var t := if io then ioTree else memTree;
      InsertIsOrdered(t, x);
      var r := Insert(t, x);
      if r.None? {
        return false;
      }
      if io {
        ioTree := r.value;
      } else {
        memTree := r.value;
      }
      return true;
    }

    /** Takes a region out of its tree. */
    method EraseRegion(x: Range)
      requires Valid() && x in Regions(Io in x.data.flags)
      modifies this
      ensures Valid() && Regions(Io in x.data.flags) == old(Regions(Io in x.data.flags)) - {x}
      ensures Regions(Io !in x.data.flags) == old(Regions(Io !in x.data.flags))
    {
      hide Ordered, Items, Erase;
      if Io in x.data.flags {
        EraseIsOrdered(ioTree, x);
        ioTree := Erase(ioTree, x.lo);
      } else {
        EraseIsOrdered(memTree, x);
        memTree := Erase(memTree, x.lo);
      }
    }

    /**
      Translates a guest address: `h` is the host address of `a`, and as long as the aliases passed do not end the
      next `n` addresses are translated to the host addresses that follow `h`.
     */
    method PhysicalMap(a: nat, size: nat) returns (ok: bool, h: int, n: int, ghost path: seq<Range>)
      requires Valid() && Acyclic(Regions(false))
      ensures ok <==> Resolvable(Regions(false), a)
      ensures ok ==> Serves(Regions(false), a, path, h) && 0 <= n <= size && (size > 0 ==> n > 0)
      ensures ok ==> exists b, y :: Leads(Regions(false), a, path, b, y) && h == HostOf(y, b)
                                    && n == if size < AvailOf(y, b) then size else AvailOf(y, b)
      ensures forall y | y in Regions(false) && y.Has(a) && Memory in y.data.flags && Alias !in y.data.flags ::
                ok && h == HostOf(y, a) && path == []
      ensures forall x | AliasAt(Regions(false), {Memory}, a, x) ::
                && (ok <==> Resolvable(Regions(false), x.data.aphys + (a - x.lo)))
                && (ok ==> path != [] && path[0] == x && Serves(Regions(false), x.data.aphys + (a - x.lo), path[1..], h))
      ensures forall x, y | && AliasAt(Regions(false), {Memory}, a, x) && y in Regions(false)
                            && Memory in y.data.flags && Alias !in y.data.flags && y.Has(x.data.aphys + (a - x.lo)) ::
                ok && h == HostOf(y, x.data.aphys + (a - x.lo)) && path == [x]
      ensures ok ==> forall k: nat | k < n && StaysIn(path, a, k) :: Serves(Regions(false), a + k, path, h + k)
    {
      hide Mapped, Ordered, Items, HostOf, AvailOf, Leads, Serves, Resolvable, Acyclic;
      ghost var s := Regions(false);
      OrderedDisjoint(memTree);
      ok, h, n, path := Translate(a, size);
      forall x | AliasAt(s, {Memory}, a, x) ensures
        && (ok <==> Resolvable(s, x.data.aphys + (a - x.lo)))
        && (ok ==> path != [] && path[0] == x && Serves(s, x.data.aphys + (a - x.lo), path[1..], h))
      {
        AliasServes(s, a, x);
      }
      forall x, y | y in s && Memory in y.data.flags && Alias !in y.data.flags
        ensures y.Has(a) ==> ok && h == HostOf(y, a) && path == []
        ensures AliasAt(s, {Memory}, a, x) && y.Has(x.data.aphys + (a - x.lo)) ==>
                  ok && h == HostOf(y, x.data.aphys + (a - x.lo)) && path == [x]
      {
        MemoryIsResolvable(s, a, x, y);
        if ok {
          ServedAt(s, a, path, h, x, y);
        }
      }
    }

    method Translate(a: nat, size: nat) returns (ok: bool, h: int, n: int, ghost path: seq<Range>)
      requires Valid() && Acyclic(Regions(false))
      ensures ok <==> Resolvable(Regions(false), a)
      ensures ok ==> Serves(Regions(false), a, path, h) && 0 <= n <= size && (size > 0 ==> n > 0)
      ensures ok ==> exists b, y :: Leads(Regions(false), a, path, b, y) && h == HostOf(y, b)
                                    && n == if size < AvailOf(y, b) then size else AvailOf(y, b)
      ensures ok ==> forall k: nat | k < n && StaysIn(path, a, k) :: Serves(Regions(false), a + k, path, h + k)
    {
      hide Via, AliasRanked, Mapped, Ordered, Items, HostOf, AvailOf;
      ghost var s := Regions(false);
      ghost var b;
      var r, addr;
      r, addr, path, b := Chase(a);
      if r.None? {
        return false, 0, 0, path;
      }
      var x := r.value;
      h, n := FindMapping(x, addr);
      SlotIsContiguous(x, addr, 0);
      ok := true;
      assert Leads(s, a, path, b, x);
      n := if size < n then size else n;
      forall k: nat | k < n && StaysIn(path, a, k) ensures Serves(s, a + k, path, h + k) {
        SlotIsContiguous(x, addr, k);
        AliasWindow(s, {Memory}, a, path, b, k);
        assert Leads(s, a + k, path, b + k, x);
      }
      assert Serves(s, a, path, h);
    }

    /** Follows the aliases, looking the region up anew at each step. */
    method Chase(a: nat) returns (r: Option<Range>, addr: nat, ghost path: seq<Range>, ghost b: nat)
      requires Valid() && Acyclic(Regions(false))
      ensures Via(Regions(false), {Memory}, a, path, b)
      ensures r.Some? ==> addr == b && Leads(Regions(false), a, path, b, r.value) && Mapped(r.value)
      ensures r.None? ==> !Resolvable(Regions(false), a)
    {
      hide AliasRanked, Mapped, Ordered, Items, Via;
      ghost var s := Regions(false);
      ghost var rank :| AliasRanked(s, rank);
      OrderedDisjoint(memTree);
      path, b, addr := [], a, a;
      assert Via(s, {Memory}, a, [], a) by { ViaNone(s, {Memory}, a); }
      r := Lookup(false, {Memory}, addr);
      if r.None? {
        DeadEnd(s, a, path, b);
        return;
      }
      while Alias in r.value.data.flags
        invariant r.Some? && Lies(s, {Memory}, addr, r.value) && forall x | x in s && x.Has(addr) :: x == r.value
        invariant addr == b && Via(s, {Memory}, a, path, b)
        decreases RankOf(s, rank, r.value)
      {
        var x := r.value;
        ViaAppend(s, {Memory}, a, path, b, x);
        addr := Aphys(x, addr);
        path, b := path + [x], addr;
        r := Lookup(false, {Memory}, addr);
        if r.None? {
          DeadEnd(s, a, path, b);
          return;
        }
        RankFalls(s, rank, x, r.value);
      }
    }
  }

  /** Via the aliases in `path`, `a` leads to the address `b` of the region `x`, which is no alias. */
  ghost predicate Leads(s: set<Range>, a: nat, path: seq<Range>, b: nat, x: Range) {
    Via(s, {Memory}, a, path, b) && Lies(s, {Memory}, b, x) && Alias !in x.data.flags
  }

  ghost predicate Resolvable(s: set<Range>, a: nat) {
    exists path, b, x :: Leads(s, a, path, b, x)
  }

  /** Via `path`, the guest address `a` stands for the host address `h`. */
  ghost predicate Serves(s: set<Range>, a: nat, path: seq<Range>, h: int) {
    exists b, x :: Leads(s, a, path, b, x) && h == HostOf(x, b)
  }

  lemma ViaNone(s: set<Range>, need: set<Flag>, a: nat)
    ensures Via(s, need, a, [], a)
  {
  }

  ghost function RankOf(s: set<Range>, rank: map<Range, nat>, x: Range): nat
    requires AliasRanked(s, rank) && x in s
  {
    rank[x]
  }

  lemma RankFalls(s: set<Range>, rank: map<Range, nat>, x: Range, y: Range)
    requires AliasRanked(s, rank) && x in s && y in s && Alias in x.data.flags
    requires exists a: nat :: x.Has(a) && y.Has(Aphys(x, a))
    ensures RankOf(s, rank, y) < RankOf(s, rank, x)
  {
  }

  ghost predicate Disjoint(s: set<Range>) {
    forall x, y, a: nat {:trigger x.Has(a), y.Has(a)} | x in s && y in s && x.Has(a) && y.Has(a) :: x == y
  }

  lemma OrderedDisjoint(t: Tree<Region>)
    requires Ordered(t)
    ensures Disjoint(Items(t))
  {
    forall x, y, a: nat | x in Items(t) && y in Items(t) && x.Has(a) && y.Has(a) ensures x == y {
      if x != y {
        ItemsAreDisjoint(t, x, y);
      }
    }
  }

  /** Since regions do not overlap, there is only one way from an address; where it ends, it ends. */
  lemma {:induction false} OneWay(s: set<Range>, a: nat, path: seq<Range>, b: nat, p: seq<Range>, c: nat, x: Range)
    requires Disjoint(s) && Via(s, {Memory}, a, path, b) && Nowhere(s, {Memory}, b)
    ensures !Leads(s, a, p, c, x)
    decreases |path|
  {
    if Leads(s, a, p, c, x) {
      var y := if p == [] then x else p[0];
      assert Lies(s, {Memory}, a, y);
      assert path != [] && path[0].Has(a);
      assert y == path[0];
      OneWay(s, Aphys(path[0], a), path[1..], b, p[1..], c, x);
    }
  }

  lemma DeadEnd(s: set<Range>, a: nat, path: seq<Range>, b: nat)
    requires Disjoint(s) && Via(s, {Memory}, a, path, b) && Nowhere(s, {Memory}, b)
    ensures !Resolvable(s, a)
  {
    if p, c, x :| Leads(s, a, p, c, x) {
      OneWay(s, a, path, b, p, c, x);
    }
  }

  /** An alias that is shorter than the slot it leads to: the size returned reaches past the end of the alias. */
  lemma AliasTooShort() returns (s: set<Range>, x: Range, y: Range)
    ensures s == {x, y} && Mapped(x) && Mapped(y) && Disjoint(s)
    ensures x.lo == 20480 && x.hi == 24576
    ensures Leads(s, 20480, [x], 8192, y) && HostOf(y, 8192) == 65536 && AvailOf(y, 8192) == 8192
    ensures !Resolvable(s, 24576)
  {
    x := Item(20480, 24576, Region({Alias, Memory}, 8192, 12, [0]));
    y := Item(8192, 16384, Region({Real, Memory}, 8192, 13, [65536]));
    s := {x, y};
    OrdersAre();
    assert [x][1..] == [];
    assert Via(s, {Memory}, 8192, [], 8192);
    assert Via(s, {Memory}, 20480, [x], 8192);
    forall p: seq<Range>, c: nat, z: Range ensures !Leads(s, 24576, p, c, z) {
      assert p != [] ==> !(p[0] in s && p[0].Has(24576));
    }
  }

  lemma OrdersAre()
    ensures Bits.Pow2(12) == 4096 && Bits.Pow2(13) == 8192
  {
    assert Bits.Pow2(10) == 1024;
  }
}
