/** Laying out the sections of a loadable module in one image, and copying them there. */
module ModuleLayout {
  import opened Options
  import opened Alignment

  type Byte = bv8

  /** A section header; `offset` is where the section has been placed, if it has been. */
  datatype Section = Section(alloc: bool, write: bool, exec: bool, nobits: bool, addralign: nat, size: nat, offset: Option<nat>)

  function AlignOf(s: Section): (a: nat)
    ensures a > 0
  {
    if s.addralign == 0 then 1 else s.addralign
  }

  /** The section is placed, aligned, in the part of the image from `lo` to `hi`. */
  predicate Within(s: Section, lo: nat, hi: nat) {
    s.offset.Some? && lo <= s.offset.value && s.offset.value + s.size <= hi && s.offset.value % AlignOf(s) == 0
  }

  /** The two sections have no byte in common. */
  predicate Apart(s: Section, t: Section) {
    s.offset.Some? && t.offset.Some? ==>
      s.offset.value + s.size <= t.offset.value || t.offset.value + t.size <= s.offset.value
  }

  ghost predicate AllApart(s: seq<Section>) {
    forall i, j {:trigger Apart(s[i], s[j])} | 0 <= i < |s| && 0 <= j < |s| && i != j :: Apart(s[i], s[j])
  }

  /** Placed sections end before `hi`. */
  ghost predicate Below(s: seq<Section>, lo: nat, hi: nat) {
    forall i {:trigger s[i].offset} | 0 <= i < |s| && s[i].offset.Some? :: Within(s[i], lo, hi)
  }

  /** Only the offsets differ. */
  ghost predicate SameHeaders(s: seq<Section>, t: seq<Section>) {
    |s| == |t| && forall i {:trigger t[i]} | 0 <= i < |s| :: t[i] == s[i].(offset := t[i].offset)
  }

  /** Which sections each of the four passes takes: code, read-only data, data, and whatever is left. */
  predicate Takes(pass: nat, s: Section) {
    match pass
    case 0 => s.exec && s.alloc
    case 1 => s.alloc && !s.write
    case 2 => s.write && s.alloc
    case _ => s.alloc
  }

  /** The pass that takes the section. */
  function PassOf(s: Section): nat {
    if !s.alloc then 4 else if s.exec then 0 else if !s.write then 1 else 2
  }

  /** After the passes before `pass`, exactly the sections they take are placed. */
  ghost predicate PlacedUpTo(s: seq<Section>, pass: nat) {
    forall i {:trigger s[i].offset} | 0 <= i < |s| :: s[i].offset.Some? <==> PassOf(s[i]) < pass
  }

  /** In pass `pass`, the sections before `n` have been looked at. */
  ghost predicate PlacedSoFar(s: seq<Section>, pass: nat, n: nat) {
    forall i {:trigger s[i].offset} | 0 <= i < |s| ::
      s[i].offset.Some? <==> PassOf(s[i]) < pass || (PassOf(s[i]) == pass && i < n)
  }

  /** What a pass places lies in the part of the image that it opens. */
  ghost predicate InPart(s: seq<Section>, pass: nat, lo: nat, hi: nat) {
    forall i {:trigger s[i].offset} | 0 <= i < |s| && PassOf(s[i]) == pass && s[i].offset.Some? :: Within(s[i], lo, hi)
  }

  /** The pass leaves the sections of the other passes alone. */
  ghost predicate OthersKept(s: seq<Section>, t: seq<Section>, pass: nat) {
    |s| == |t| && forall i | 0 <= i < |s| && PassOf(s[i]) != pass :: t[i] == s[i]
  }

  lemma TakesIsPass(s: Section, pass: nat)
    requires pass < 4
    ensures PassOf(s) >= pass ==> (Takes(pass, s) <==> PassOf(s) == pass)
  {
  }

  /** Places the section behind everything placed so far and returns the new size. */
  function GetOffset(size: nat, s: Section): (r: (nat, nat))
    ensures size <= r.0 && r.0 + s.size == r.1 && r.0 < size + AlignOf(s)
  {
    var ret := AlignUp(size, AlignOf(s));
    (ret, ret + s.size)
  }

  lemma PlaceOne(s: seq<Section>, i: nat, lo: nat, size: nat)
    requires i < |s| && s[i].offset == None && AllApart(s) && Below(s, lo, size) && lo <= size
    ensures var r := GetOffset(size, s[i]);
            var t := s[i := s[i].(offset := Some(r.0))];
            AllApart(t) && Below(t, lo, r.1) && Within(t[i], size, r.1) && size <= r.1
  {
    var r := GetOffset(size, s[i]);
    var t := s[i := s[i].(offset := Some(r.0))];
    AlignUpAligned(size, AlignOf(s[i]));
    assert Within(t[i], size, r.1);
    forall j, k | 0 <= j < |t| && 0 <= k < |t| && j != k ensures Apart(t[j], t[k]) {
      assert j != i && k != i ==> Apart(s[j], s[k]);
      assert j != i && s[j].offset.Some? ==> Within(s[j], lo, size);
      assert k != i && s[k].offset.Some? ==> Within(s[k], lo, size);
    }
    forall j | 0 <= j < |t| && t[j].offset.Some? ensures Within(t[j], lo, r.1) {
      assert j != i ==> Within(s[j], lo, size);
    }
  }

  /** One pass over the sections. */
  method LayoutPass(secs: array<Section>, pass: nat, ghost lo: nat, size0: nat) returns (size: nat)
    requires pass < 4 && lo <= size0
    requires AllApart(secs[..]) && Below(secs[..], lo, size0) && PlacedUpTo(secs[..], pass)
    modifies secs
    ensures size0 <= size && SameHeaders(old(secs[..]), secs[..])
    ensures AllApart(secs[..]) && Below(secs[..], lo, size) && PlacedUpTo(secs[..], pass + 1)
    ensures InPart(secs[..], pass, size0, size)
    ensures OthersKept(old(secs[..]), secs[..], pass)
  {
    hide AllApart, Below, PlacedSoFar, PlacedUpTo, InPart, SameHeaders, GetOffset;
    size := size0;
    PassStarts(secs[..], pass, size0);
    for i := 0 to secs.Length
      invariant size0 <= size && SameHeaders(old(secs[..]), secs[..])
      invariant AllApart(secs[..]) && Below(secs[..], lo, size) && PlacedSoFar(secs[..], pass, i)
      invariant InPart(secs[..], pass, size0, size)
      invariant forall j | 0 <= j < secs.Length && PassOf(old(secs[j])) != pass :: secs[j] == old(secs[j])
    {
      ghost var s := secs[..];
      PassStep(old(secs[..]), s, pass, i, lo, size0, size);
      if Takes(pass, secs[i]) && secs[i].offset == None {
        var r := GetOffset(size, secs[i]);
        secs[i] := secs[i].(offset := Some(r.0));
        size := r.1;
        assert secs[..] == s[i := s[i].(offset := Some(r.0))];
      }
    }
    PassEnds(secs[..], pass, secs.Length);
  }

  lemma PassStarts(s: seq<Section>, pass: nat, size: nat)
    requires PlacedUpTo(s, pass)
    ensures PlacedSoFar(s, pass, 0) && SameHeaders(s, s) && InPart(s, pass, size, size)
  {
  }

  lemma PassEnds(s: seq<Section>, pass: nat, n: nat)
    requires PlacedSoFar(s, pass, n) && n == |s|
    ensures PlacedUpTo(s, pass + 1)
  {
  }

  lemma PassStep(s0: seq<Section>, s: seq<Section>, pass: nat, i: nat, lo: nat, size0: nat, size: nat)
    requires pass < 4 && i < |s| && lo <= size0 <= size && SameHeaders(s0, s)
    requires AllApart(s) && Below(s, lo, size) && PlacedSoFar(s, pass, i) && InPart(s, pass, size0, size)
    ensures PassOf(s[i]) == PassOf(s0[i]) && (Takes(pass, s[i]) && s[i].offset == None <==> PassOf(s[i]) == pass)
    ensures PassOf(s[i]) != pass ==> PlacedSoFar(s, pass, i + 1)
    ensures PassOf(s[i]) == pass ==>
              var r := GetOffset(size, s[i]);
              var t := s[i := s[i].(offset := Some(r.0))];
              && size <= r.1 && SameHeaders(s0, t) && AllApart(t) && Below(t, lo, r.1)
              && PlacedSoFar(t, pass, i + 1) && InPart(t, pass, size0, r.1)
  {
    hide AllApart, Below;
    TakesIsPass(s[i], pass);
    assert s[i].offset.Some? <==> PassOf(s[i]) < pass;
    if PassOf(s[i]) == pass {
      PlaceOne(s, i, lo, size);
    }
  }

  datatype Sizes = Sizes(text: nat, ro: nat, core: nat)

  /**
    Every section that is loaded has exactly one aligned place, no two overlap, and all lie inside the image:
    code below the text size, read-only data behind it and below the read-only size, data behind that.
   */
  ghost predicate LaidOut(s: seq<Section>, start: nat, z: Sizes) {
    && start <= z.text <= z.ro <= z.core && AllApart(s)
    && (forall i {:trigger s[i].offset} | 0 <= i < |s| :: s[i].offset.Some? <==> s[i].alloc)
    && (forall i {:trigger s[i].offset} | 0 <= i < |s| && s[i].alloc ::
          if s[i].exec then Within(s[i], start, z.text)
          else if !s[i].write then Within(s[i], z.text, z.ro)
          else Within(s[i], z.ro, z.core))
  }

  /** Lays out the sections that are loaded, in four passes. */
  method LayoutSections(secs: array<Section>, start: nat, pad: nat) returns (z: Sizes)
    requires pad > 0
    modifies secs
    ensures SameHeaders(old(secs[..]), secs[..]) && LaidOut(secs[..], start, z)
  {
    hide AllApart, Below, PlacedUpTo, InPart, SameHeaders, PlacedSoFar, OthersKept, LaidOut;
    Clear(secs);
    ghost var s := secs[..];
    NothingPlaced(s, start);
    var size := LayoutPass(secs, 0, start, start);
    ghost var c0, t0 := size, secs[..];
    var text := AlignUp(size, pad);
    BelowMore(t0, start, size, text);
    size := LayoutPass(secs, 1, start, text);
    ghost var c1, t1 := size, secs[..];
    var ro := AlignUp(size, pad);
    BelowMore(t1, start, size, ro);
    size := LayoutPass(secs, 2, start, ro);
    ghost var c2, t2 := size, secs[..];
    size := LayoutPass(secs, 3, start, size);
    z := Sizes(text, ro, AlignUp(size, pad));
    HeadersTrans(old(secs[..]), s, t0, t1, t2, secs[..]);
    Finish(t0, t1, t2, secs[..], start, c0, c1, c2, z);
  }

  lemma Finish(t0: seq<Section>, t1: seq<Section>, t2: seq<Section>, t3: seq<Section>, start: nat, c0: nat, c1: nat, c2: nat, z: Sizes)
    requires start <= c0 <= z.text <= c1 <= z.ro <= c2 <= z.core
    requires SameHeaders(t0, t1) && SameHeaders(t1, t2) && SameHeaders(t2, t3)
    requires OthersKept(t0, t1, 1) && OthersKept(t1, t2, 2) && OthersKept(t2, t3, 3)
    requires InPart(t0, 0, start, c0) && InPart(t1, 1, z.text, c1) && InPart(t2, 2, z.ro, c2)
    requires PlacedUpTo(t3, 4) && AllApart(t3)
    ensures LaidOut(t3, start, z)
  {
    hide AllApart;
    forall i | 0 <= i < |t3|
      ensures t3[i].offset.Some? <==> t3[i].alloc
      ensures t3[i].alloc ==> if t3[i].exec then Within(t3[i], start, z.text)
                              else if !t3[i].write then Within(t3[i], z.text, z.ro)
                              else Within(t3[i], z.ro, z.core)
    {
      FinishOne(t0[i], t1[i], t2[i], t3[i]);
      assert t3[i].offset.Some? <==> PassOf(t3[i]) < 4;
      assert PassOf(t0[i]) == 0 && t0[i].offset.Some? ==> Within(t0[i], start, c0);
      assert PassOf(t1[i]) == 1 && t1[i].offset.Some? ==> Within(t1[i], z.text, c1);
      assert PassOf(t2[i]) == 2 && t2[i].offset.Some? ==> Within(t2[i], z.ro, c2);
    }
  }

  lemma FinishOne(a: Section, b: Section, c: Section, d: Section)
    requires b == a.(offset := b.offset) && c == b.(offset := c.offset) && d == c.(offset := d.offset)
    requires PassOf(a) != 1 ==> b == a
    requires PassOf(b) != 2 ==> c == b
    requires PassOf(c) != 3 ==> d == c
    ensures PassOf(a) == PassOf(b) == PassOf(c) == PassOf(d)
    ensures PassOf(d) == 0 ==> d == a
    ensures PassOf(d) == 1 ==> d == b
    ensures PassOf(d) == 2 ==> d == c
  {
  }

  /** Marks every section as not placed. */
  method Clear(secs: array<Section>)
    modifies secs
    ensures SameHeaders(old(secs[..]), secs[..]) && forall i | 0 <= i < secs.Length :: secs[i].offset == None
  {
    for i := 0 to secs.Length
      invariant forall j | 0 <= j < secs.Length :: secs[j] == if j < i then old(secs[j]).(offset := None) else old(secs[j])
    {
      secs[i] := secs[i].(offset := None);
    }
  }

  lemma NothingPlaced(s: seq<Section>, start: nat)
    requires forall i | 0 <= i < |s| :: s[i].offset == None
    ensures AllApart(s) && Below(s, start, start) && PlacedUpTo(s, 0)
  {
  }

  lemma BelowMore(s: seq<Section>, lo: nat, hi: nat, more: nat)
    requires Below(s, lo, hi) && hi <= more
    ensures Below(s, lo, more)
  {
  }

  lemma HeadersTrans(a: seq<Section>, b: seq<Section>, c: seq<Section>, d: seq<Section>, e: seq<Section>, f: seq<Section>)
    requires SameHeaders(a, b) && SameHeaders(b, c) && SameHeaders(c, d) && SameHeaders(d, e) && SameHeaders(e, f)
    ensures SameHeaders(a, f)
  {
    forall i | 0 <= i < |a| ensures f[i] == a[i].(offset := f[i].offset) {
      assert b[i] == a[i].(offset := b[i].offset) && c[i] == b[i].(offset := c[i].offset);
      assert d[i] == c[i].(offset := d[i].offset) && e[i] == d[i].(offset := e[i].offset);
    }
  }

  // ------------------------------------------------------------ symbol tables

  /** The sections that are loaded, and no others, have an aligned place below `core`, and no two overlap. */
  ghost predicate Placed(s: seq<Section>, core: nat) {
    && AllApart(s) && Below(s, 0, core)
    && forall i {:trigger s[i].offset} | 0 <= i < |s| :: s[i].offset.Some? <==> s[i].alloc
  }

  lemma LaidOutIsPlaced(s: seq<Section>, start: nat, z: Sizes)
    requires LaidOut(s, start, z)
    ensures Placed(s, z.core)
  {
    hide AllApart;
    forall i | 0 <= i < |s| && s[i].offset.Some? ensures Within(s[i], 0, z.core) {
      assert s[i].alloc;
    }
  }

  /** The section moved behind everything else, as one that is loaded. */
  function Last(size: nat, s: Section): (t: Section)
    ensures t.alloc && t.size == s.size && Within(t, size, GetOffset(size, s).1)
  {
    AlignUpAligned(size, AlignOf(s));
    s.(alloc := true, offset := Some(GetOffset(size, s).0))
  }

  /** Moving a section behind the image keeps the sections placed, whether it had a place before or not. */
  lemma PlaceLast(s: seq<Section>, i: nat, size: nat)
    requires i < |s| && Placed(s, size)
    ensures Placed(s[i := Last(size, s[i])], GetOffset(size, s[i]).1)
  {
    var t, end := s[i := Last(size, s[i])], GetOffset(size, s[i]).1;
    forall j | 0 <= j < |t| && t[j].offset.Some? ensures Within(t[j], 0, end) {
      assert j != i ==> Within(s[j], 0, size);
    }
    forall j, k | 0 <= j < |t| && 0 <= k < |t| && j != k ensures Apart(t[j], t[k]) {
      assert j != i && k != i ==> Apart(s[j], s[k]);
      assert j != i && s[j].offset.Some? ==> Within(s[j], 0, size);
      assert k != i && s[k].offset.Some? ==> Within(s[k], 0, size);
    }
    forall j | 0 <= j < |t| ensures t[j].offset.Some? <==> t[j].alloc {
      assert j != i ==> (s[j].offset.Some? <==> s[j].alloc);
    }
  }

  /** No section reaches into the bytes from `at` to `end`. */
  ghost predicate Unused(s: seq<Section>, at: nat, end: nat) {
    forall i, p | 0 <= i < |s| && at <= p < end :: !Has(s[i], p)
  }

  lemma PlacedLeavesRoom(s: seq<Section>, core: nat, at: nat, end: nat)
    requires Placed(s, core) && core <= at <= end
    ensures Placed(s, end) && Unused(s, at, end)
  {
    hide AllApart;
    forall i, p | 0 <= i < |s| && at <= p < end ensures !Has(s[i], p) {
      assert s[i].offset.Some? ==> Within(s[i], 0, core);
    }
    forall i | 0 <= i < |s| && s[i].offset.Some? ensures Within(s[i], 0, end) {
      assert Within(s[i], 0, core);
    }
  }

  lemma RoomStaysUnused(s: seq<Section>, i: nat, size: nat, at: nat, end: nat)
    requires i < |s| && Unused(s, at, end) && end <= size
    ensures Unused(s[i := Last(size, s[i])], at, end)
  {
  }

  /** Where the kept symbols and their names go, and the size of the image with them. */
  datatype Tables = Tables(symbols: nat, strings: nat, core: nat)

  /**
    Adds the symbol table and the string table to the sections that are loaded, each with room behind it for
    what is kept of it: `symbols` bytes of symbols and `strings` bytes of names.
   */
  method LayoutSymtab(secs: array<Section>, sym: nat, str: nat, size: nat, symbols: nat, strings: nat) returns (z: Tables)
    requires sym < secs.Length && str < secs.Length && Placed(secs[..], size)
    modifies secs
    ensures Placed(secs[..], z.core) && size <= z.symbols && z.symbols + symbols <= z.strings && z.core == z.strings + strings
    ensures z.symbols % AlignOf(secs[sym]) == 0
    ensures Unused(secs[..], z.symbols, z.symbols + symbols) && Unused(secs[..], z.strings, z.core)
    ensures forall i | 0 <= i < secs.Length :: secs[i] ==
              if i == sym || i == str then old(secs[i]).(alloc := true, offset := secs[i].offset) else old(secs[i])
  {
    hide Placed, Unused, GetOffset, AlignUp;
    ghost var s := secs[..];
    PlaceLast(s, sym, size);
    var end := GetOffset(size, secs[sym]).1;
    secs[sym] := Last(size, secs[sym]);
    ghost var t := secs[..];
    assert t == s[sym := Last(size, s[sym])];

    var symoffs := AlignUp(end, AlignOf(secs[sym]));
    AlignUpAligned(end, AlignOf(secs[sym]));
    var core := symoffs + symbols;
    PlacedLeavesRoom(t, end, symoffs, core);

    PlaceLast(t, str, core);
    RoomStaysUnused(t, str, core, symoffs, core);
    end := GetOffset(core, secs[str]).1;
    secs[str] := Last(core, secs[str]);
    ghost var u := secs[..];
    assert u == t[str := Last(core, t[str])];
    PlacedLeavesRoom(u, end, end, end + strings);
    z := Tables(symoffs, end, end + strings);
  }

  // ------------------------------------------------------------------ copying

  /** Byte `p` of the image lies in the section. */
  predicate Has(s: Section, p: nat) {
    s.offset.Some? && s.offset.value <= p < s.offset.value + s.size
  }

  /** The byte of the image that the sections before `n` leave at `p`: their contents, and zero elsewhere. */
  ghost predicate Shows(s: seq<Section>, contents: seq<seq<Byte>>, n: nat, p: nat, b: Byte)
    requires n <= |s| <= |contents| && forall i | 0 <= i < |s| :: |contents[i]| == s[i].size
  {
    && (forall i | 0 <= i < n && Has(s[i], p) && !s[i].nobits :: b == contents[i][p - s[i].offset.value])
    && ((forall i | 0 <= i < n :: s[i].nobits || !Has(s[i], p)) ==> b == 0)
  }

  /** The image holds the section's contents at the section's place. */
  ghost predicate Loaded(s: Section, bytes: seq<Byte>, image: seq<Byte>) {
    && s.offset.Some? && s.offset.value + |bytes| <= |image|
    && image[s.offset.value..s.offset.value + |bytes|] == bytes
  }

  /**
    Copies the sections into the image.  Because they were placed apart, every one of them is found there
    unharmed, and every other byte is zero.
   */
  method MoveModule(secs: array<Section>, contents: seq<seq<Byte>>, core: nat) returns (image: array<Byte>)
    requires Placed(secs[..], core) && secs.Length == |contents|
    requires forall i | 0 <= i < secs.Length :: |contents[i]| == secs[i].size
    ensures fresh(image) && image.Length == core
    ensures forall p | 0 <= p < core :: Shows(secs[..], contents, secs.Length, p, image[p])
  {
    image := new Byte[core](_ => 0);
    ghost var s := secs[..];
    for i := 0 to secs.Length
      invariant forall p | 0 <= p < core :: Shows(s, contents, i, p, image[p])
    {
      if secs[i].alloc && !secs[i].nobits {
        InsideImage(s, core, i);
        ghost var before := image[..];
        Copy(image, secs[i].offset.value, contents[i]);
        forall p | 0 <= p < core ensures Shows(s, contents, i + 1, p, image[p]) {
          CopiedOne(s, contents, i, p, before[p], image[p]);
        }
      } else {
        assert s[i].offset.Some? <==> s[i].alloc;
        assert forall p :: s[i].nobits || !Has(s[i], p);
        forall p | 0 <= p < core ensures Shows(s, contents, i + 1, p, image[p]) {
          SkippedOne(s, contents, i, p, image[p]);
        }
      }
    }
  }

  /**
    Lays out a module and loads it: every section that is loaded, the symbol and string tables among them, is
    found unharmed in the image, and the room kept for symbols and their names is zero.
   */
  method AllocAndLoad(secs: array<Section>, contents: seq<seq<Byte>>, sym: nat, str: nat, start: nat, pad: nat, symbols: nat, strings: nat)
    returns (image: array<Byte>, z: Tables)
    requires pad > 0 && sym < secs.Length && str < secs.Length && secs.Length == |contents|
    requires forall i | 0 <= i < secs.Length :: |contents[i]| == secs[i].size
    modifies secs
    ensures fresh(image) && image.Length == z.core && z.symbols + symbols <= z.strings && z.core == z.strings + strings
    ensures forall i | 0 <= i < secs.Length ::
              && secs[i] == old(secs[i]).(alloc := secs[i].alloc, offset := secs[i].offset)
              && secs[i].alloc == (old(secs[i].alloc) || i == sym || i == str)
    ensures forall i | 0 <= i < secs.Length && secs[i].alloc && !secs[i].nobits :: Loaded(secs[i], contents[i], image[..])
    ensures forall p | z.symbols <= p < z.symbols + symbols || z.strings <= p < z.core :: image[p] == 0
  {
    hide Placed, Unused, LaidOut, Shows;
    var sizes := LayoutSections(secs, start, pad);
    LaidOutIsPlaced(secs[..], start, sizes);
    ghost var s := secs[..];
    z := LayoutSymtab(secs, sym, str, sizes.core, symbols, strings);
    ghost var t := secs[..];
    image := MoveModule(secs, contents, z.core);
    forall i | 0 <= i < secs.Length && secs[i].alloc && !secs[i].nobits ensures Loaded(t[i], contents[i], image[..]) {
      InsideImage(t, z.core, i);
      ShownIsLoaded(t, contents, i, image[..]);
    }
    forall p | z.symbols <= p < z.symbols + symbols || z.strings <= p < z.core ensures image[p] == 0 {
      UnusedIsZero(t, contents, z.symbols, z.symbols + symbols, z.strings, z.core, p, image[p]);
    }
  }

  lemma ShownIsLoaded(s: seq<Section>, contents: seq<seq<Byte>>, i: nat, image: seq<Byte>)
    requires |s| == |contents| && i < |s| && forall j | 0 <= j < |s| :: |contents[j]| == s[j].size
    requires s[i].offset.Some? && !s[i].nobits && s[i].offset.value + s[i].size <= |image|
    requires forall p | 0 <= p < |image| :: Shows(s, contents, |s|, p, image[p])
    ensures Loaded(s[i], contents[i], image)
  {
    var at := s[i].offset.value;
    forall k | 0 <= k < s[i].size ensures image[at + k] == contents[i][k] {
      assert Shows(s, contents, |s|, at + k, image[at + k]) && Has(s[i], at + k);
    }
  }

  lemma UnusedIsZero(s: seq<Section>, contents: seq<seq<Byte>>, a: nat, b: nat, c: nat, d: nat, p: nat, byte: Byte)
    requires |s| == |contents| && forall j | 0 <= j < |s| :: |contents[j]| == s[j].size
    requires Unused(s, a, b) && Unused(s, c, d) && (a <= p < b || c <= p < d) && Shows(s, contents, |s|, p, byte)
    ensures byte == 0
  {
  }

  method Copy(image: array<Byte>, at: nat, bytes: seq<Byte>)
    requires at + |bytes| <= image.Length
    modifies image
    ensures forall p | 0 <= p < image.Length :: image[p] == if at <= p < at + |bytes| then bytes[p - at] else old(image[p])
  {
    for k := 0 to |bytes|
      invariant forall p | 0 <= p < image.Length :: image[p] == if at <= p < at + k then bytes[p - at] else old(image[p])
    {
      image[at + k] := bytes[k];
    }
  }

  lemma InsideImage(s: seq<Section>, core: nat, i: nat)
    requires Placed(s, core) && i < |s| && s[i].alloc
    ensures s[i].offset.Some? && s[i].offset.value + s[i].size <= core
  {
    hide AllApart;
    assert s[i].offset.Some?;
    assert Within(s[i], 0, core);
  }

  lemma CopiedOne(s: seq<Section>, contents: seq<seq<Byte>>, i: nat, p: nat, b: Byte, b': Byte)
    requires AllApart(s) && |s| == |contents| && i < |s| && forall k | 0 <= k < |s| :: |contents[k]| == s[k].size
    requires s[i].offset.Some? && !s[i].nobits && Shows(s, contents, i, p, b)
    requires b' == if Has(s[i], p) then contents[i][p - s[i].offset.value] else b
    ensures Shows(s, contents, i + 1, p, b')
  {
    forall k | 0 <= k < i && Has(s[k], p) ensures !Has(s[i], p) {
      assert Apart(s[k], s[i]);
    }
  }

  lemma SkippedOne(s: seq<Section>, contents: seq<seq<Byte>>, i: nat, p: nat, b: Byte)
    requires |s| == |contents| && i < |s| && forall k | 0 <= k < |s| :: |contents[k]| == s[k].size
    requires (s[i].nobits || !Has(s[i], p)) && Shows(s, contents, i, p, b)
    ensures Shows(s, contents, i + 1, p, b)
  {
  }
}
