/** Ignored paths: skipping a directory outright, and what the digest can still depend on. */
module DigestIgnore {
  import opened Seqs
  import opened ByteStrings
  import opened Sorting
  import opened DigestRecords
  import opened ContentDigest
  import opened DigestLaws
  import opened DockerIgnore

  /** Every name at any depth is one that a directory can list. */
  ghost predicate RealNames(t: Node)
    decreases t
  {
    t.Dir? ==> forall c :: c in t.entries ==> RealName(c.name) && RealNames(c.node)
  }

  /** The walk ends at once because the bare root itself is ignored. */
  predicate PrunedRoot(ignore: Ignore, p: Bytes) {
    RootLabel(p) && ignore.ignored(p) && !ignore.hasNegation
  }

  /** The records of paths that are not ignored. */
  function Keep(ignore: Ignore, rs: seq<Record>): seq<Record> {
    if rs == [] then [] else (if ignore.ignored(rs[0].path) then [] else [rs[0]]) + Keep(ignore, rs[1..])
  }

  lemma {:induction false} KeepConcat(ignore: Ignore, a: seq<Record>, b: seq<Record>)
    ensures Keep(ignore, a + b) == Keep(ignore, a) + Keep(ignore, b)
  {
    if a == [] {
      assert a + b == b;
    } else {
      assert (a + b)[1..] == a[1..] + b;
      KeepConcat(ignore, a[1..], b);
    }
  }

  lemma {:induction false} NothingKept(ignore: Ignore, p: Bytes, t: Node)
    requires Inherited(ignore) && !ignore.hasNegation && ignore.ignored(p) && !RootLabel(p) && RealNames(t)
    ensures Keep(ignore, Records(None, p, t)) == []
    decreases t, 1
  {
    if t.Dir? {
      NothingKeptAll(ignore, p, t.entries);
    }
    KeepConcat(ignore, [Record(p, OwnOf(t))], if t.Dir? then RecordsAll(None, p, t.entries) else []);
    assert [Record(p, OwnOf(t))][1..] == [];
  }

  lemma {:induction false} NothingKeptAll(ignore: Ignore, p: Bytes, es: seq<Child>)
    requires Inherited(ignore) && !ignore.hasNegation && ignore.ignored(p) && !RootLabel(p)
    requires forall c :: c in es ==> RealName(c.name) && RealNames(c.node)
    ensures Keep(ignore, RecordsAll(None, p, es)) == []
    decreases es, 0
  {
    if es == [] {
    } else {
      assert es[0] in es;
      SegmentsBelow(p, es[0].name);
      NothingKept(ignore, ChildPath(p, es[0].name), es[0].node);
      NothingKeptAll(ignore, p, es[1..]);
      KeepConcat(ignore, Records(None, ChildPath(p, es[0].name), es[0].node), RecordsAll(None, p, es[1..]));
    }
  }

  /** Skipping ignored directories while walking is the same as visiting every path and dropping the ignored ones. */
  lemma {:induction false} SkippingIsDropping(ignore: Ignore, p: Bytes, t: Node)
    requires Inherited(ignore) && RealNames(t) && !PrunedRoot(ignore, p)
    ensures Records(Some(ignore), p, t) == Keep(ignore, Records(None, p, t))
    decreases t, 1
  {
    if ignore.ignored(p) && !ignore.hasNegation {
      NothingKept(ignore, p, t);
    } else {
      var own, below := Record(p, OwnOf(t)), if t.Dir? then RecordsAll(None, p, t.entries) else [];
      KeepConcat(ignore, [own], below);
      assert [own][1..] == [];
      if t.Dir? {
        SkippingIsDroppingAll(ignore, p, t.entries);
      }
    }
  }

  lemma {:induction false} SkippingIsDroppingAll(ignore: Ignore, p: Bytes, es: seq<Child>)
    requires Inherited(ignore) && forall c :: c in es ==> RealName(c.name) && RealNames(c.node)
    ensures RecordsAll(Some(ignore), p, es) == Keep(ignore, RecordsAll(None, p, es))
    decreases es, 0
  {
    if es == [] {
    } else {
      assert es[0] in es;
      SegmentsBelow(p, es[0].name);
      SkippingIsDropping(ignore, ChildPath(p, es[0].name), es[0].node);
      SkippingIsDroppingAll(ignore, p, es[1..]);
      KeepConcat(ignore, Records(None, ChildPath(p, es[0].name), es[0].node), RecordsAll(None, p, es[1..]));
    }
  }

  /** For every list of patterns, except that the walk may end at an ignored bare root where dropping goes on. */
  lemma {:induction false} PatternsSkipAndDrop(patterns: seq<Pattern>, p: Bytes, t: Node)
    requires RealNames(t)
    ensures
      var ignore := Compiled(patterns);
      Records(Some(ignore), p, t) == if PrunedRoot(ignore, p) then [] else Keep(ignore, Records(None, p, t))
  {
    CompiledInherits(patterns);
    if !PrunedRoot(Compiled(patterns), p) {
      SkippingIsDropping(Compiled(patterns), p, t);
    }
  }

  /** At an ignored bare root the two do differ: the pattern `/` skips a whole context of which it ignores no file. */
  lemma {:induction false} PrunedRootSkipsMore(name: Bytes, content: Bytes)
    requires RealName(name)
    ensures
      var ignore, t := Compiled([SlashPattern()]), Dir([Child(name, File(content))]);
      && PrunedRoot(ignore, [SLASH]) && RealNames(t)
      && Records(Some(ignore), [SLASH], t) == [] && Keep(ignore, Records(None, [SLASH], t)) != []
  {
    var ignore, c := Compiled([SlashPattern()]), Child(name, File(content));
    RootAlone(name);
    var own, file := Record([SLASH], OwnDir), Record(ChildPath([SLASH], name), OwnFile(content));
    assert [c][1..] == [];
    assert RecordsAll(None, [SLASH], [c]) == [file];
    KeepConcat(ignore, [own], [file]);
    assert [file][1..] == [];
    assert Keep(ignore, [file]) == [file];
  }

  // ----- trees that agree on what is not ignored -----

  /** Directories list each name once, in order, and all names are real. */
  ghost predicate Ordered(t: Node)
    decreases t
  {
    t.Dir? ==> OrderedAll(t.entries)
  }

  ghost predicate OrderedAll(es: seq<Child>)
    decreases es
  {
    && Ascending(NameLess, es)
    && forall c :: c in es ==> RealName(c.name) && Ordered(c.node)
  }

  /** The kept records of a node, at any depth. */
  function Visible(ignore: Ignore, p: Bytes, t: Node): seq<Record> {
    Keep(ignore, Records(None, p, t))
  }

  function VisibleAll(ignore: Ignore, p: Bytes, es: seq<Child>): seq<Record> {
    Keep(ignore, RecordsAll(None, p, es))
  }

  predicate Within(p: Bytes, other: Bytes) {
    other == p || Beneath(p, other)
  }

  lemma {:induction false} WithinChild(p: Bytes, name: Bytes, other: Bytes)
    requires Within(ChildPath(p, name), other)
    ensures Beneath(p, other)
  {
  }

  lemma {:induction false} LongerNameHasSlash(p: Bytes, a: Bytes, b: Bytes, other: Bytes)
    requires Within(ChildPath(p, a), other) && Within(ChildPath(p, b), other) && |a| < |b|
    ensures SLASH in b
  {
  }

  /** A path lies within one entry of a directory only. */
  lemma {:induction false} WithinOne(p: Bytes, a: Bytes, b: Bytes, other: Bytes)
    requires SLASH !in a && SLASH !in b && Within(ChildPath(p, a), other) && Within(ChildPath(p, b), other)
    ensures a == b
  {
    if |a| < |b| {
      LongerNameHasSlash(p, a, b, other);
    } else if |b| < |a| {
      LongerNameHasSlash(p, b, a, other);
    } else {
      var n := |p| + 1;
      assert other[..n + |a|] == ChildPath(p, a) && other[..n + |b|] == ChildPath(p, b);
      SameChild(p, a, b);
    }
  }

  lemma {:induction false} KeepSubset(ignore: Ignore, rs: seq<Record>)
    ensures forall r :: r in Keep(ignore, rs) <==> r in rs && !ignore.ignored(r.path)
  {
    if rs == [] {
    } else {
      KeepSubset(ignore, rs[1..]);
      assert rs == [rs[0]] + rs[1..];
    }
  }

  lemma {:induction false} RecordsWithin(p: Bytes, t: Node)
    ensures forall r :: r in Records(None, p, t) ==> Within(p, r.path)
    ensures forall r :: r in Records(None, p, t) && r.path == p ==> r == Record(p, OwnOf(t))
    decreases t, 1
  {
    if t.Dir? {
      RecordsAllWithin(p, t.entries);
    }
  }

  lemma {:induction false} RecordsAllWithin(p: Bytes, es: seq<Child>)
    ensures forall r :: r in RecordsAll(None, p, es) ==> Beneath(p, r.path)
    ensures forall r :: r in RecordsAll(None, p, es) ==>
              exists c :: c in es && Within(ChildPath(p, c.name), r.path)
    decreases es, 0
  {
    if es == [] {
    } else {
      var c := es[0];
      RecordsWithin(ChildPath(p, c.name), c.node);
      RecordsAllWithin(p, es[1..]);
      forall r | r in RecordsAll(None, p, es)
        ensures Beneath(p, r.path)
        ensures exists c :: c in es && Within(ChildPath(p, c.name), r.path)
      {
        if r in Records(None, ChildPath(p, c.name), c.node) {
          WithinChild(p, c.name, r.path);
          assert c in es;
        }
      }
    }
  }

  lemma {:induction false} VisibleWithin(ignore: Ignore, p: Bytes, t: Node)
    ensures forall r :: r in Visible(ignore, p, t) ==> Within(p, r.path)
  {
    RecordsWithin(p, t);
    KeepSubset(ignore, Records(None, p, t));
  }

  /** The kept records of a directory's entries are those of the first entry and those of the others. */
  lemma {:induction false} VisibleSplit(ignore: Ignore, p: Bytes, es: seq<Child>)
    requires es != [] && OrderedAll(es)
    ensures
      var first := Visible(ignore, ChildPath(p, es[0].name), es[0].node);
      var others := VisibleAll(ignore, p, es[1..]);
      && VisibleAll(ignore, p, es) == first + others
      && (forall r :: r in first ==> Within(ChildPath(p, es[0].name), r.path))
      && (forall r :: r in others ==> !Within(ChildPath(p, es[0].name), r.path))
  {
    var c := es[0];
    KeepConcat(ignore, Records(None, ChildPath(p, c.name), c.node), RecordsAll(None, p, es[1..]));
    VisibleWithin(ignore, ChildPath(p, c.name), c.node);
    OthersOutside(ignore, p, es);
  }

  lemma {:induction false} OthersOutside(ignore: Ignore, p: Bytes, es: seq<Child>)
    requires es != [] && OrderedAll(es)
    ensures forall r :: r in VisibleAll(ignore, p, es[1..]) ==> !Within(ChildPath(p, es[0].name), r.path)
  {
    KeepSubset(ignore, RecordsAll(None, p, es[1..]));
    RecordsAllWithin(p, es[1..]);
    forall r | r in VisibleAll(ignore, p, es[1..])
      ensures !Within(ChildPath(p, es[0].name), r.path)
    {
      var d :| d in es[1..] && Within(ChildPath(p, d.name), r.path);
      OtherNameOutside(p, es, d, r.path);
    }
  }

  lemma {:induction false} OtherNameOutside(p: Bytes, es: seq<Child>, d: Child, other: Bytes)
    requires es != [] && OrderedAll(es) && d in es[1..] && Within(ChildPath(p, d.name), other)
    ensures !Within(ChildPath(p, es[0].name), other)
  {
    var k :| 0 <= k < |es[1..]| && es[1..][k] == d;
    assert NameLess(es[0], es[k + 1]) && es[k + 1] in es && es[0] in es;
    BytesLessIrreflexive(d.name);
    if Within(ChildPath(p, es[0].name), other) {
      WithinOne(p, es[0].name, d.name, other);
    }
  }

  /** A kept record lies within an entry whose name is no smaller than the first one's. */
  lemma {:induction false} KeptUnder(ignore: Ignore, p: Bytes, es: seq<Child>, r: Record) returns (c: Child)
    requires OrderedAll(es) && r in VisibleAll(ignore, p, es)
    ensures c in es && Within(ChildPath(p, c.name), r.path) && (c == es[0] || NameLess(es[0], c))
  {
    KeepSubset(ignore, RecordsAll(None, p, es));
    RecordsAllWithin(p, es);
    c :| c in es && Within(ChildPath(p, c.name), r.path);
  }

  /** If both first entries keep something and the kept records are the same, the first entries have the same name. */
  lemma {:induction false} SameFirstName(ignore: Ignore, p: Bytes, es: seq<Child>, fs: seq<Child>)
    requires es != [] && fs != [] && OrderedAll(es) && OrderedAll(fs)
    requires forall r :: r in VisibleAll(ignore, p, es) <==> r in VisibleAll(ignore, p, fs)
    requires Visible(ignore, ChildPath(p, es[0].name), es[0].node) != []
    requires Visible(ignore, ChildPath(p, fs[0].name), fs[0].node) != []
    ensures es[0].name == fs[0].name
  {
    var r := Visible(ignore, ChildPath(p, es[0].name), es[0].node)[0];
    var q := Visible(ignore, ChildPath(p, fs[0].name), fs[0].node)[0];
    VisibleSplit(ignore, p, es);
    VisibleSplit(ignore, p, fs);
    assert r in VisibleAll(ignore, p, es) && q in VisibleAll(ignore, p, fs);
    var d := KeptUnder(ignore, p, fs, r);
    var c := KeptUnder(ignore, p, es, q);
    assert es[0] in es && fs[0] in fs;
    WithinOne(p, es[0].name, d.name, r.path);
    WithinOne(p, fs[0].name, c.name, q.path);
    if es[0].name != fs[0].name {
      NameOrder();
      assert NameLess(fs[0], es[0]) && NameLess(es[0], fs[0]);
    }
  }

  /** Two ordered trees that keep the same records keep them in the same order. */
  lemma {:induction false} VisibleSame(ignore: Ignore, p: Bytes, t: Node, u: Node)
    requires Ordered(t) && Ordered(u)
    requires forall r :: r in Visible(ignore, p, t) <==> r in Visible(ignore, p, u)
    ensures Visible(ignore, p, t) == Visible(ignore, p, u)
    decreases Size(t) + Size(u), 0
  {
    var es, fs := if t.Dir? then t.entries else [], if u.Dir? then u.entries else [];
    OwnAndBelow(ignore, p, t, es);
    OwnAndBelow(ignore, p, u, fs);
    forall r
      ensures r in VisibleAll(ignore, p, es) <==> r in VisibleAll(ignore, p, fs)
    {
      assert r in VisibleAll(ignore, p, es) <==> r in Visible(ignore, p, t) && r.path != p;
      assert r in VisibleAll(ignore, p, fs) <==> r in Visible(ignore, p, u) && r.path != p;
    }
    if !ignore.ignored(p) {
      var own := Record(p, OwnOf(t));
      assert Visible(ignore, p, t)[0] == own && own in Visible(ignore, p, u);
    }
    VisibleAllSame(ignore, p, es, fs);
  }

  lemma {:induction false} OwnAndBelow(ignore: Ignore, p: Bytes, t: Node, es: seq<Child>)
    requires es == if t.Dir? then t.entries else []
    ensures Visible(ignore, p, t)
         == (if ignore.ignored(p) then [] else [Record(p, OwnOf(t))]) + VisibleAll(ignore, p, es)
    ensures forall r :: r in VisibleAll(ignore, p, es) ==> r.path != p
  {
    KeepConcat(ignore, [Record(p, OwnOf(t))], RecordsAll(None, p, es));
    assert [Record(p, OwnOf(t))][1..] == [];
    RecordsAllWithin(p, es);
    KeepSubset(ignore, RecordsAll(None, p, es));
  }

  lemma {:induction false} VisibleAllSame(ignore: Ignore, p: Bytes, es: seq<Child>, fs: seq<Child>)
    requires OrderedAll(es) && OrderedAll(fs)
    requires forall r :: r in VisibleAll(ignore, p, es) <==> r in VisibleAll(ignore, p, fs)
    ensures VisibleAll(ignore, p, es) == VisibleAll(ignore, p, fs)
    decreases SizeAll(es) + SizeAll(fs), 1
  {
    if es == [] {
    } else {
      VisibleSplit(ignore, p, es);
      assert es[0] in es;
    }
    if fs != [] {
      VisibleSplit(ignore, p, fs);
      assert fs[0] in fs;
    }
    if es != [] && Visible(ignore, ChildPath(p, es[0].name), es[0].node) == [] {
      VisibleAllSame(ignore, p, es[1..], fs);
    } else if fs != [] && Visible(ignore, ChildPath(p, fs[0].name), fs[0].node) == [] {
      VisibleAllSame(ignore, p, es, fs[1..]);
    } else if es != [] && fs != [] {
      SameFirstName(ignore, p, es, fs);
      var child := ChildPath(p, es[0].name);
      forall r
        ensures r in Visible(ignore, child, es[0].node) <==> r in Visible(ignore, child, fs[0].node)
        ensures r in VisibleAll(ignore, p, es[1..]) <==> r in VisibleAll(ignore, p, fs[1..])
      {
        assert r in VisibleAll(ignore, p, es) <==> r in VisibleAll(ignore, p, fs);
      }
      VisibleSame(ignore, child, es[0].node, fs[0].node);
      VisibleAllSame(ignore, p, es[1..], fs[1..]);
    } else if VisibleAll(ignore, p, es) != [] {
      FirstIn(VisibleAll(ignore, p, es));
    } else if VisibleAll(ignore, p, fs) != [] {
      FirstIn(VisibleAll(ignore, p, fs));
    }
  }

  // ----- back to trees as the file system lists them -----

  /** A directory holds each name once, and every name is real. */
  ghost predicate WellNamed(t: Node)
    decreases t
  {
    t.Dir? ==> DistinctNames(t.entries) && forall c :: c in t.entries ==> RealName(c.name) && WellNamed(c.node)
  }

  lemma {:induction false} NormalOrdered(t: Node)
    requires WellNamed(t)
    ensures Ordered(Normal(t))
    decreases t
  {
    if t.Dir? {
      var all := NormalAll(t.entries);
      var sorted := Sort(NameLess, all);
      NameOrder();
      NamesComparable(all);
      SortAscending(NameLess, all);
      forall c | c in sorted
        ensures RealName(c.name) && Ordered(c.node)
      {
        InMultiset(sorted, all, c);
        var i :| 0 <= i < |all| && all[i] == c;
        assert t.entries[i] in t.entries;
        NormalOrdered(t.entries[i].node);
      }
    }
  }

  /** A record of a directory's entries is a record of one of them. */
  lemma {:induction false} RecordsAllMember(p: Bytes, es: seq<Child>, r: Record)
    ensures r in RecordsAll(None, p, es) <==> exists c :: c in es && r in Records(None, ChildPath(p, c.name), c.node)
  {
    if es == [] {
    } else {
      RecordsAllMember(p, es[1..], r);
      assert es == [es[0]] + es[1..];
    }
  }

  lemma {:induction false} NormalKeepsRecords(p: Bytes, t: Node, r: Record)
    ensures r in Records(None, p, Normal(t)) <==> r in Records(None, p, t)
    decreases t
  {
    if t.Dir? {
      var all := NormalAll(t.entries);
      var sorted := Sort(NameLess, all);
      RecordsAllMember(p, t.entries, r);
      RecordsAllMember(p, sorted, r);
      forall i | 0 <= i < |all|
        ensures r in Records(None, ChildPath(p, all[i].name), all[i].node)
           <==> r in Records(None, ChildPath(p, t.entries[i].name), t.entries[i].node)
      {
        NormalKeepsRecords(ChildPath(p, all[i].name), t.entries[i].node, r);
      }
      forall c
        ensures c in sorted <==> c in all
      {
        InMultiset(sorted, all, c);
      }
      SameSomewhere(p, t.entries, all, sorted, r);
    }
  }

  lemma {:induction false} SameSomewhere(p: Bytes, es: seq<Child>, all: seq<Child>, sorted: seq<Child>, r: Record)
    requires |es| == |all| && forall c :: c in sorted <==> c in all
    requires forall i :: 0 <= i < |all| ==>
               (r in Records(None, ChildPath(p, all[i].name), all[i].node)
                <==> r in Records(None, ChildPath(p, es[i].name), es[i].node))
    ensures (exists c :: c in sorted && r in Records(None, ChildPath(p, c.name), c.node))
       <==> (exists c :: c in es && r in Records(None, ChildPath(p, c.name), c.node))
  {
  }

  /** Both trees have the same files, links and directories at the paths that are not ignored. */
  ghost predicate Agree(ignore: Ignore, p: Bytes, t: Node, u: Node) {
    forall r: Record :: !ignore.ignored(r.path) ==> (r in Records(None, p, t) <==> r in Records(None, p, u))
  }

  ghost predicate SameVisible(ignore: Ignore, p: Bytes, t: Node, u: Node) {
    forall r :: r in Visible(ignore, p, t) <==> r in Visible(ignore, p, u)
  }

  lemma {:induction false} VisibleMember(ignore: Ignore, p: Bytes, t: Node, r: Record)
    ensures r in Visible(ignore, p, Normal(t)) <==> r in Records(None, p, t) && !ignore.ignored(r.path)
  {
    KeepSubset(ignore, Records(None, p, Normal(t)));
    NormalKeepsRecords(p, t, r);
  }

  lemma {:induction false} AgreeVisible(ignore: Ignore, p: Bytes, t: Node, u: Node)
    ensures Agree(ignore, p, t, u) <==> SameVisible(ignore, p, Normal(t), Normal(u))
  {
    if Agree(ignore, p, t, u) {
      forall r
        ensures r in Visible(ignore, p, Normal(t)) <==> r in Visible(ignore, p, Normal(u))
      {
        BothVisible(ignore, p, t, u, r);
      }
    }
    if SameVisible(ignore, p, Normal(t), Normal(u)) {
      forall r: Record
        ensures !ignore.ignored(r.path) ==> (r in Records(None, p, t) <==> r in Records(None, p, u))
      {
        BothVisible(ignore, p, t, u, r);
      }
    }
  }

  lemma {:induction false} BothVisible(ignore: Ignore, p: Bytes, t: Node, u: Node, r: Record)
    ensures (r in Visible(ignore, p, Normal(t)) <==> r in Visible(ignore, p, Normal(u)))
       <==> (!ignore.ignored(r.path) ==> (r in Records(None, p, t) <==> r in Records(None, p, u)))
  {
    VisibleMember(ignore, p, t, r);
    VisibleMember(ignore, p, u, r);
  }

  /** Trees that agree on every path that is not ignored feed the hasher the same bytes, with or without negation. */
  lemma {:induction false} IgnoredPathsDoNotMatter(ignore: Ignore, p: Bytes, t: Node, u: Node)
    requires Inherited(ignore) && WellNamed(t) && WellNamed(u) && Agree(ignore, p, t, u)
    ensures Stream(Some(ignore), p, t) == Stream(Some(ignore), p, u)
  {
    if !PrunedRoot(ignore, p) {
      AgreeVisible(ignore, p, t, u);
      NormalOrdered(t);
      NormalOrdered(u);
      SameRecords(ignore, p, Normal(t), Normal(u));
    }
  }

  lemma {:induction false} SameRecords(ignore: Ignore, p: Bytes, t: Node, u: Node)
    requires Inherited(ignore) && Ordered(t) && Ordered(u) && SameVisible(ignore, p, t, u) && !PrunedRoot(ignore, p)
    ensures Records(Some(ignore), p, t) == Records(Some(ignore), p, u)
  {
    VisibleSame(ignore, p, t, u);
    OrderedReal(t);
    OrderedReal(u);
    SkippingIsDropping(ignore, p, t);
    SkippingIsDropping(ignore, p, u);
  }

  lemma {:induction false} OrderedReal(t: Node)
    requires Ordered(t)
    ensures RealNames(t)
    decreases t
  {
    if t.Dir? {
      forall c | c in t.entries
        ensures RealNames(c.node)
      {
        OrderedReal(c.node);
      }
    }
  }

  /** And for clean trees with unambiguous symlinks on one side, only those. */
  lemma {:induction false} DigestSeesExactlyWhatIsCopied(ignore: Ignore, p: Bytes, t: Node, u: Node)
    requires Inherited(ignore) && WellNamed(t) && WellNamed(u) && !PrunedRoot(ignore, p)
    requires Clean(t) && Clean(u) && NEWLINE !in p && Unambiguous(p, t)
    ensures Stream(Some(ignore), p, t) == Stream(Some(ignore), p, u) <==> Agree(ignore, p, t, u)
  {
    if Agree(ignore, p, t, u) {
      IgnoredPathsDoNotMatter(ignore, p, t, u);
    }
    if Stream(Some(ignore), p, t) == Stream(Some(ignore), p, u) {
      NormalOrdered(t);
      NormalOrdered(u);
      OrderedReal(Normal(t));
      OrderedReal(Normal(u));
      SkippingIsDropping(ignore, p, Normal(t));
      SkippingIsDropping(ignore, p, Normal(u));
      VisibleOneLine(ignore, p, t);
      VisibleOneLine(ignore, p, u);
      KeepSubset(ignore, Records(None, p, Normal(t)));
      StreamDeterminesRecords(Visible(ignore, p, Normal(t)), Visible(ignore, p, Normal(u)));
      AgreeVisible(ignore, p, t, u);
    }
  }

  lemma {:induction false} VisibleOneLine(ignore: Ignore, p: Bytes, t: Node)
    requires Clean(t) && NEWLINE !in p
    ensures forall r :: r in Visible(ignore, p, Normal(t)) ==> OneLine(r)
  {
    NormalClean(t);
    RecordsOneLine(p, Normal(t));
    KeepSubset(ignore, Records(None, p, Normal(t)));
  }
}
