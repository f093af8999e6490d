/** Different trees that feed the hasher the same bytes: why the premises on names, targets and sources are needed. */
module DigestLimits {
  import opened Seqs
  import opened ByteStrings
  import opened Sorting
  import opened DigestRecords
  import opened ContentDigest
  import opened DigestLaws

  // ----- the streams of small directories -----

  lemma {:induction false} LeafRecords(path: Bytes, node: Node)
    requires !node.Dir?
    ensures Records(None, path, node) == [Record(path, OwnOf(node))]
  {
  }

  lemma {:induction false} EmptyDirRecords(path: Bytes)
    ensures Normal(Dir([])) == Dir([]) && Records(None, path, Dir([])) == [Record(path, OwnDir)]
  {
  }

  lemma {:induction false} OneEntryRecords(p: Bytes, c: Child)
    requires !c.node.Dir?
    ensures Normal(Dir([c])) == Dir([c])
    ensures Records(None, p, Dir([c])) == [Record(p, OwnDir)] + [Record(ChildPath(p, c.name), OwnOf(c.node))]
  {
    assert [c][1..] == [];
    assert NormalAll([c]) == [c] && Sort(NameLess, [c]) == [c];
    LeafRecords(ChildPath(p, c.name), c.node);
    assert RecordsAll(None, p, [c]) == [Record(ChildPath(p, c.name), OwnOf(c.node))];
  }

  lemma {:induction false} WriteTwo(r: Record, q: Record)
    ensures WriteAll([r] + [q]) == Write(r) + Write(q)
  {
    WriteAllConcat([r], [q]);
    WriteOne(r);
    WriteOne(q);
  }

  /** The stream of a directory that holds one entry, which is no directory. */
  lemma {:induction false} OneEntryStream(p: Bytes, c: Child)
    requires !c.node.Dir?
    ensures Normal(Dir([c])) == Dir([c])
    ensures Stream(None, p, Dir([c])) == Write(Record(p, OwnDir)) + Write(Record(ChildPath(p, c.name), OwnOf(c.node)))
  {
    OneEntryRecords(p, c);
    WriteTwo(Record(p, OwnDir), Record(ChildPath(p, c.name), OwnOf(c.node)));
  }

  lemma {:induction false} SortedPair(c: Child, d: Child)
    requires c.node.Link? && d.node == Dir([]) && NameLess(c, d)
    ensures Normal(Dir([c, d])) == Dir([c, d])
  {
    assert Normal(d.node) == d.node;
    assert NormalAll([c, d]) == [c, d];
    assert [c, d][1..] == [d] && [d][1..] == [];
    NameOrder();
    assert Sort(NameLess, [d]) == [d];
    assert Sort(NameLess, [c, d]) == Insert(NameLess, c, [d]);
  }

  lemma {:induction false} LinkAndDirRecords(p: Bytes, c: Child, d: Child)
    requires c.node.Link? && d.node == Dir([])
    ensures
      var link, dir := Record(ChildPath(p, c.name), OwnOf(c.node)), Record(ChildPath(p, d.name), OwnDir);
      Records(None, p, Dir([c, d])) == [Record(p, OwnDir)] + ([link] + [dir])
  {
    var link, dir := Record(ChildPath(p, c.name), OwnOf(c.node)), Record(ChildPath(p, d.name), OwnDir);
    LeafRecords(link.path, c.node);
    EmptyDirRecords(dir.path);
    assert [c, d][1..] == [d] && [d][1..] == [];
    assert RecordsAll(None, p, [d]) == [dir];
    assert RecordsAll(None, p, [c, d]) == [link] + [dir];
  }

  /** The stream of a directory that holds a symlink and, after it, an empty directory. */
  lemma {:induction false} LinkAndDirStream(p: Bytes, c: Child, d: Child)
    requires c.node.Link? && d.node == Dir([]) && NameLess(c, d)
    ensures
      var link, dir := Record(ChildPath(p, c.name), OwnOf(c.node)), Record(ChildPath(p, d.name), OwnDir);
      Stream(None, p, Dir([c, d])) == Write(Record(p, OwnDir)) + (Write(link) + Write(dir))
  {
    var own, link, dir := Record(p, OwnDir), Record(ChildPath(p, c.name), OwnOf(c.node)),
                          Record(ChildPath(p, d.name), OwnDir);
    SortedPair(c, d);
    LinkAndDirRecords(p, c, d);
    WriteAllConcat([own], [link] + [dir]);
    WriteOne(own);
    WriteTwo(link, dir);
  }

  // ----- another arrow -----

  lemma {:induction false} ArrowMoves(p: Bytes, a: Bytes, b: Bytes, c: Bytes)
    ensures ChildPath(p, a) + ARROW + (b + ARROW + c) == ChildPath(p, a + ARROW + b) + ARROW + c
  {
    var d := p + [SLASH];
    ConcatAssoc(d, a + ARROW, b);
    ConcatAssoc(d, a, ARROW);
    ConcatAssoc(d + a + ARROW, b, ARROW + c);
    ConcatAssoc(b, ARROW, c);
    ConcatAssoc(d + a + ARROW + b, ARROW, c);
  }

  /** Without the premise on arrows, a part of a symlink's target can pass for a part of its name. */
  lemma {:induction false} AmbiguousSymlinks(p: Bytes, a: Bytes, b: Bytes, c: Bytes)
    ensures
      var t, u := Dir([Child(a, Link(b + ARROW + c))]), Dir([Child(a + ARROW + b, Link(c))]);
      Normal(t) != Normal(u) && Stream(None, p, t) == Stream(None, p, u)
  {
    var l, m := Child(a, Link(b + ARROW + c)), Child(a + ARROW + b, Link(c));
    OneEntryStream(p, l);
    OneEntryStream(p, m);
    ArrowMoves(p, a, b, c);
    assert |l.name| != |m.name|;
  }

  /** And all names and targets may be clean. */
  lemma {:induction false} ArrowNeeded(a: Bytes, b: Bytes, c: Bytes)
    requires NEWLINE !in a && NEWLINE !in b && NEWLINE !in c && SLASH !in a && SLASH !in b
    ensures Clean(Dir([Child(a, Link(b + ARROW + c))])) && Clean(Dir([Child(a + ARROW + b, Link(c))]))
  {
    OneClean(Child(a, Link(b + ARROW + c)));
    OneClean(Child(a + ARROW + b, Link(c)));
  }

  lemma {:induction false} OneClean(c: Child)
    requires SLASH !in c.name && NEWLINE !in c.name && Clean(c.node)
    ensures Clean(Dir([c]))
  {
    assert [c][1..] == [] && CleanAll([]);
  }

  // ----- a newline in a target -----

  /** A symlink's record whose target goes on with a newline and a directory's header. */
  lemma {:induction false} LinkImitates(path: Bytes, x: Bytes, dir: Record)
    requires dir.own.OwnDir?
    ensures Write(Record(path, OwnLink(x + [NEWLINE] + Header(dir)))) == Write(Record(path, OwnLink(x))) + Write(dir)
  {
    var tag, shown := [TAG_LINK, SPACE], path + ARROW;
    ConcatAssoc(shown, x, [NEWLINE] + Header(dir));
    ConcatAssoc(x, [NEWLINE], Header(dir));
    ConcatAssoc(tag, shown + x, [NEWLINE] + Header(dir));
    ConcatAssoc(tag + (shown + x), [NEWLINE], Header(dir));
    ConcatAssoc(tag + (shown + x) + [NEWLINE], Header(dir), [NEWLINE]);
    WriteOne(dir);
    WriteOne(Record(path, OwnLink(x)));
    WriteOne(Record(path, OwnLink(x + [NEWLINE] + Header(dir))));
  }

  /**
    * Without the premise on newlines in targets, a symlink can imitate the records after it: `a` with the target `x`,
    * a newline and the record of a directory `b`, or `a` with the target `x` beside an empty directory `b`.
    */
  lemma {:induction false} NewlineInTarget(p: Bytes, a: Bytes, b: Bytes, x: Bytes)
    requires BytesLess(a, b)
    ensures
      var t := Dir([Child(a, Link(x + [NEWLINE] + Header(Record(ChildPath(p, b), OwnDir))))]);
      var u := Dir([Child(a, Link(x)), Child(b, Dir([]))]);
      Normal(t) != Normal(u) && Stream(None, p, t) == Stream(None, p, u)
  {
    var dir := Record(ChildPath(p, b), OwnDir);
    var l, c, d := Child(a, Link(x + [NEWLINE] + Header(dir))), Child(a, Link(x)), Child(b, Dir([]));
    OneEntryStream(p, l);
    SortedPair(c, d);
    LinkAndDirStream(p, c, d);
    LinkImitates(ChildPath(p, a), x, dir);
    assert |Normal(Dir([l])).entries| != |Normal(Dir([c, d])).entries|;
  }

  /** And the second tree may be clean and show each arrow once. */
  lemma {:induction false} NewlineNeeded(p: Bytes, a: Bytes, b: Bytes, x: Bytes)
    requires BytesLess(a, b) && OneArrow(Record(ChildPath(p, a), OwnLink(x))) && NEWLINE !in x
    requires SLASH !in a && NEWLINE !in a && SLASH !in b && NEWLINE !in b
    ensures
      var u := Dir([Child(a, Link(x)), Child(b, Dir([]))]);
      Clean(u) && Unambiguous(p, u)
  {
    var c, d := Child(a, Link(x)), Child(b, Dir([]));
    LinkUnambiguous(p, c, d);
    TwoClean(c, d);
  }

  lemma {:induction false} LinkUnambiguous(p: Bytes, c: Child, d: Child)
    requires c.node.Link? && d.node == Dir([]) && NameLess(c, d)
    requires OneArrow(Record(ChildPath(p, c.name), OwnOf(c.node)))
    ensures Unambiguous(p, Dir([c, d]))
  {
    SortedPair(c, d);
    LinkAndDirRecords(p, c, d);
    OnlyLinkArrows(Record(p, OwnDir), Record(ChildPath(p, c.name), OwnOf(c.node)), Record(ChildPath(p, d.name), OwnDir));
  }

  lemma {:induction false} OnlyLinkArrows(own: Record, link: Record, dir: Record)
    requires own.own.OwnDir? && dir.own.OwnDir? && OneArrow(link)
    ensures forall r :: r in [own] + ([link] + [dir]) ==> OneArrow(r)
  {
  }

  lemma {:induction false} TwoClean(c: Child, d: Child)
    requires SLASH !in c.name && NEWLINE !in c.name && Clean(c.node)
    requires SLASH !in d.name && NEWLINE !in d.name && Clean(d.node)
    ensures Clean(Dir([c, d]))
  {
    assert [c, d][1..] == [d];
    OneClean(d);
  }

  // ----- a newline in a name -----

  const FOUR: Bytes := [SPACE, 52, NEWLINE, 81]
  const QUIET: Bytes := [81, SPACE, 48, NEWLINE]

  /** A file's record whose path goes on with a length, a newline and `Q`. */
  lemma {:induction false} FileImitates(path: Bytes)
    ensures Write(Record(path + FOUR, OwnFile([]))) == Write(Record(path, OwnFile(QUIET)))
  {
    WrittenFile(path + FOUR, []);
    WrittenFile(path, QUIET);
    var tag: Bytes := [TAG_FILE, SPACE];
    ConcatAssoc(tag + path, FOUR, [SPACE] + Decimal(0) + [NEWLINE] + []);
    ConcatAssoc(tag, path, FOUR);
    Imitation();
  }

  lemma {:induction false} Imitation()
    ensures FOUR + ([SPACE] + Decimal(0) + [NEWLINE] + []) == [SPACE] + Decimal(4) + [NEWLINE] + QUIET
  {
    assert Decimal(0) == [48] && Decimal(4) == [52];
  }

  lemma {:induction false} WrittenFile(path: Bytes, content: Bytes)
    ensures Write(Record(path, OwnFile(content)))
         == [TAG_FILE, SPACE] + path + ([SPACE] + Decimal(|content|) + [NEWLINE] + content)
  {
    var tag: Bytes := [TAG_FILE, SPACE];
    var size := [SPACE] + Decimal(|content|);
    ConcatAssoc(path, [SPACE], Decimal(|content|));
    ConcatAssoc(tag, path, size);
    ConcatAssoc(tag + path, size, [NEWLINE]);
    ConcatAssoc(tag + path, size + [NEWLINE], content);
  }

  /**
    * Without the premise on newlines in names, a file's name can imitate a file's contents: the empty file named
    * `a 4`, newline, `Q`, or the file `a` of the four bytes `Q 0` and newline.
    */
  lemma {:induction false} NewlineInName(p: Bytes, a: Bytes)
    ensures
      var t, u := Dir([Child(a + FOUR, File([]))]), Dir([Child(a, File(QUIET))]);
      Normal(t) != Normal(u) && Stream(None, p, t) == Stream(None, p, u)
  {
    var l, m := Child(a + FOUR, File([])), Child(a, File(QUIET));
    OneEntryStream(p, l);
    OneEntryStream(p, m);
    FileImitates(ChildPath(p, a));
    ConcatAssoc(p + [SLASH], a, FOUR);
    assert |l.name| != |m.name|;
  }

  // ----- sources beneath one another -----

  lemma {:induction false} OneSource(s: Source)
    ensures SourceRecords(None, [s]) == Records(None, s.path, Normal(s.node))
  {
    assert [s][1..] == [];
  }

  lemma {:induction false} TwoSources(s: Source, t: Source)
    ensures SourceRecords(None, [s, t]) == Records(None, s.path, Normal(s.node)) + Records(None, t.path, Normal(t.node))
  {
    assert [s, t][1..] == [t];
    OneSource(t);
  }

  /** Without `Apart`, an empty directory followed by a file beneath it reads like the directory with the file in it. */
  lemma {:induction false} ApartNeeded(p: Bytes, name: Bytes, content: Bytes)
    ensures
      var a := [Source(p, Dir([])), Source(ChildPath(p, name), File(content))];
      var b := [Source(p, Dir([Child(name, File(content))]))];
      SourcesStream(None, a) == SourcesStream(None, b) && !SameSources(a, b) && !Apart(a) && Apart(b)
  {
    var child := Child(name, File(content));
    var a := [Source(p, Dir([])), Source(ChildPath(p, name), child.node)];
    TwoSources(a[0], a[1]);
    OneSource(Source(p, Dir([child])));
    EmptyDirRecords(p);
    LeafRecords(ChildPath(p, name), child.node);
    OneEntryRecords(p, child);
    ChildBeneath(p, name);
    assert Beneath(a[1 - 1].path, a[1].path);
  }
}
