/** Which trees a symlink's arrow leaves open: those with a symlink that can be read at another arrow in its place. */
module DigestArrows {
  import opened Seqs
  import opened ByteStrings
  import opened Sorting
  import opened DigestRecords
  import opened ContentDigest
  import opened DigestLaws
  import opened DigestIgnore

  // ----- records that are written alike -----

  /** What a record's line shows after its tag, but for a file's length. */
  function Shown(r: Record): Bytes {
    if r.own.OwnLink? then r.path + ARROW + r.own.target else r.path
  }

  /** The same record, or two symlinks whose lines show the same. */
  predicate Alike(r: Record, q: Record) {
    r == q || (r.own.OwnLink? && q.own.OwnLink? && Shown(r) == Shown(q))
  }

  predicate AllAlike(a: seq<Record>, b: seq<Record>) {
    |a| == |b| && forall i :: 0 <= i < |a| ==> Alike(a[i], b[i])
  }

  lemma {:induction false} AlikeWritten(r: Record, q: Record)
    requires Alike(r, q)
    ensures Write(r) == Write(q)
  {
  }

  lemma {:induction false} AllAlikeWritten(a: seq<Record>, b: seq<Record>)
    requires AllAlike(a, b)
    ensures WriteAll(a) == WriteAll(b)
  {
    if a == [] {
    } else {
      AlikeWritten(a[0], b[0]);
      AllAlikeWritten(a[1..], b[1..]);
    }
  }

  /** Equal first lines show the same; those of files are of the same length. */
  lemma {:induction false} HeaderAlike(r: Record, q: Record)
    requires Header(r) == Header(q)
    ensures if r.own.OwnFile? then q.own.OwnFile? && r.path == q.path && |r.own.content| == |q.own.content| else Alike(r, q)
  {
    assert Header(r)[0] == Header(q)[0];
    match r.own
    case OwnFile(c) =>
      SameTail(TAG_FILE, r.path + [SPACE] + Decimal(|c|), q.path + [SPACE] + Decimal(|q.own.content|));
      DecimalReadsBack(|c|);
      DecimalReadsBack(|q.own.content|);
      LastSpace(r.path, Decimal(|c|), q.path, Decimal(|q.own.content|));
    case OwnLink(_) =>
      SameTail(TAG_LINK, Shown(r), Shown(q));
    case OwnDir =>
      SameTail(TAG_DIR, r.path, q.path);
  }

  lemma {:induction false} FirstAlike(r: Record, more: Bytes, q: Record, rest: Bytes)
    requires OneLine(r) && OneLine(q) && Write(r) + more == Write(q) + rest
    ensures Alike(r, q) && more == rest
  {
    HeaderOneLine(r);
    HeaderOneLine(q);
    ConcatAssoc(Header(r) + [NEWLINE], Body(r), more);
    ConcatAssoc(Header(q) + [NEWLINE], Body(q), rest);
    SplitOnceAt(Header(r), NEWLINE, Body(r) + more);
    SplitOnceAt(Header(q), NEWLINE, Body(q) + rest);
    HeaderAlike(r, q);
    BodyAlike(Body(r), more, Body(q), rest);
  }

  lemma {:induction false} BodyAlike(a: Bytes, more: Bytes, b: Bytes, rest: Bytes)
    requires a + more == b + rest && |a| == |b|
    ensures a == b && more == rest
  {
    assert a == (a + more)[..|a|] && b == (b + rest)[..|b|];
    assert more == (a + more)[|a|..] && rest == (b + rest)[|b|..];
  }

  /** Without newlines in labels and targets, equal streams are written record by record. */
  lemma {:induction false} StreamAlike(a: seq<Record>, b: seq<Record>)
    requires AllOneLine(a) && AllOneLine(b) && WriteAll(a) == WriteAll(b)
    ensures AllAlike(a, b)
    decreases |a|
  {
    WriteAllEmpty(a);
    WriteAllEmpty(b);
    if a == [] || b == [] {
    } else {
      FirstIn(a);
      FirstIn(b);
      FirstAlike(a[0], WriteAll(a[1..]), b[0], WriteAll(b[1..]));
      StreamAlike(a[1..], b[1..]);
      assert forall i :: 0 < i < |a| ==> a[i] == a[1..][i - 1] && b[i] == b[1..][i - 1];
    }
  }

  // ----- trees that are written alike -----

  /** The same tree, but for where the arrow of a symlink in it is read. */
  ghost predicate Reread(t: Node, u: Node)
    decreases t, 1
  {
    if t.Dir? && u.Dir? then RereadAll(t.entries, u.entries) else t == u
  }

  ghost predicate RereadAll(es: seq<Child>, fs: seq<Child>)
    decreases es, 1
  {
    |es| == |fs| && forall i :: 0 <= i < |es| ==> RereadChild(es, fs, i)
  }

  ghost predicate RereadChild(es: seq<Child>, fs: seq<Child>, i: nat)
    requires i < |es| == |fs|
    decreases es, 0
  {
    if es[i].node.Link? then fs[i].node.Link? && SameText(es[i], fs[i])
    else es[i].name == fs[i].name && Reread(es[i].node, fs[i].node)
  }

  predicate SameText(a: Child, b: Child)
    requires a.node.Link? && b.node.Link?
  {
    a.name + ARROW + a.node.target == b.name + ARROW + b.node.target
  }

  /** The first record shows something beneath the path. */
  predicate ShowsBeneath(path: Bytes, rs: seq<Record>) {
    rs != [] && Beneath(path, Shown(rs[0]))
  }

  lemma {:induction false} BeneathLonger(path: Bytes, name: Bytes, more: Bytes)
    ensures Beneath(path, ChildPath(path, name) + more)
  {
  }

  lemma {:induction false} BeneathParent(path: Bytes, name: Bytes, other: Bytes)
    requires Beneath(ChildPath(path, name), other)
    ensures Beneath(path, other)
  {
    assert ChildPath(path, name)[..|path|] == path;
    assert other[..|path|] == other[..|path| + 1 + |name|][..|path|];
  }

  lemma {:induction false} EntryShows(p: Bytes, c: Child)
    ensures Records(None, ChildPath(p, c.name), c.node) != []
    ensures ShowsBeneath(p, Records(None, ChildPath(p, c.name), c.node))
  {
    var r := Record(ChildPath(p, c.name), OwnOf(c.node));
    if c.node.Link? {
      ConcatAssoc(r.path, ARROW, c.node.target);
      BeneathLonger(p, c.name, ARROW + c.node.target);
    } else {
      assert r.path + [] == r.path;
      BeneathLonger(p, c.name, []);
    }
  }

  /** Whether there are entries can be seen from what is shown first. */
  lemma {:induction false} EntriesShow(p: Bytes, es: seq<Child>, more: seq<Record>)
    requires !ShowsBeneath(p, more)
    ensures es == [] <==> !ShowsBeneath(p, RecordsAll(None, p, es) + more)
  {
    if es == [] {
      assert [] + more == more;
    } else {
      EntryShows(p, es[0]);
      var first := Records(None, ChildPath(p, es[0].name), es[0].node);
      ConcatAssoc(first, RecordsAll(None, p, es[1..]), more);
      assert (RecordsAll(None, p, es) + more)[0] == first[0];
    }
  }

  lemma {:induction false} PrefixNotLess(a: Bytes, b: Bytes)
    requires b <= a
    ensures !BytesLess(a, b)
  {
    if b == [] {
    } else {
      assert a[0] == b[0];
      PrefixNotLess(a[1..], b[1..]);
    }
  }

  lemma {:induction false} PrefixLess(a: Bytes, b: Bytes)
    requires a < b
    ensures BytesLess(a, b)
  {
    if a == [] {
    } else {
      assert a[0] == b[0];
      PrefixLess(a[1..], b[1..]);
    }
  }

  lemma {:induction false} ShorterShown(path: Bytes, a: Bytes, b: Bytes, more: Bytes)
    requires Beneath(ChildPath(path, a), ChildPath(path, b) + more) && |b| <= |a|
    ensures b <= a
  {
    var shown, first, n := ChildPath(path, b) + more, ChildPath(path, a), |path| + 1;
    forall k | 0 <= k < |b|
      ensures a[k] == b[k]
    {
      assert shown[n + k] == b[k];
      assert first[n + k] == a[k];
      assert shown[..|first|][n + k] == shown[n + k];
    }
  }

  /** A later sibling's name, whatever is shown after it, does not show anything beneath an earlier one. */
  lemma {:induction false} LaterNotBeneath(path: Bytes, a: Bytes, b: Bytes, more: Bytes)
    requires BytesLess(a, b) && SLASH !in a && SLASH !in b
    ensures !Beneath(ChildPath(path, a), ChildPath(path, b) + more)
  {
    var shown, n := ChildPath(path, b) + more, |path| + 1;
    assert |b| > |a| ==> shown[n + |a|] == b[|a|] && b[|a|] in b;
    if Beneath(ChildPath(path, a), shown) && |b| <= |a| {
      ShorterShown(path, a, b, more);
      PrefixNotLess(a, b);
    }
  }

  lemma {:induction false} NextApart(p: Bytes, es: seq<Child>, more: seq<Record>)
    requires es != [] && OrderedAll(es) && !ShowsBeneath(p, more)
    ensures !ShowsBeneath(ChildPath(p, es[0].name), RecordsAll(None, p, es[1..]) + more)
  {
    var all := RecordsAll(None, p, es[1..]) + more;
    if |es| == 1 {
      assert all == more;
      if ShowsBeneath(ChildPath(p, es[0].name), more) {
        BeneathParent(p, es[0].name, Shown(more[0]));
      }
    } else {
      var d := es[1];
      assert es[1..][0] == d && NameLess(es[0], d) && es[0] in es && d in es;
      EntryShows(p, d);
      assert all[0] == Record(ChildPath(p, d.name), OwnOf(d.node));
      if d.node.Link? {
        ConcatAssoc(ChildPath(p, d.name), ARROW, d.node.target);
        LaterNotBeneath(p, es[0].name, d.name, ARROW + d.node.target);
      } else {
        assert ChildPath(p, d.name) + [] == ChildPath(p, d.name);
        LaterNotBeneath(p, es[0].name, d.name, []);
      }
    }
  }

  lemma {:induction false} RestAlike(a: seq<Record>, b: seq<Record>)
    requires a != [] && AllAlike(a, b)
    ensures Alike(a[0], b[0]) && AllAlike(a[1..], b[1..])
  {
  }

  lemma {:induction false} AlikeFirst(p: Bytes, t: Node, u: Node)
    requires Alike(Record(p, OwnOf(t)), Record(p, OwnOf(u)))
    ensures if t.Dir? then u.Dir? else t == u
  {
    if t.Link? {
      assert Shown(Record(p, OwnOf(t)))[|p| + |ARROW|..] == t.target;
      assert Shown(Record(p, OwnOf(u)))[|p| + |ARROW|..] == u.target;
    }
  }

  /** Trees in order whose records are written alike, each followed by other records, are the same but for arrows. */
  lemma {:induction false} TreeAlike(p: Bytes, t: Node, more: seq<Record>, u: Node, rest: seq<Record>)
    requires Ordered(t) && Ordered(u) && !ShowsBeneath(p, more) && !ShowsBeneath(p, rest)
    requires AllAlike(Records(None, p, t) + more, Records(None, p, u) + rest)
    ensures Reread(t, u) && AllAlike(more, rest)
    decreases t, 1
  {
    FirstAndMore(p, t, more);
    FirstAndMore(p, u, rest);
    RestAlike(Records(None, p, t) + more, Records(None, p, u) + rest);
    AlikeFirst(p, t, u);
    if t.Dir? {
      EntriesAlike(p, t.entries, more, u.entries, rest);
    }
  }

  lemma {:induction false} EntriesAlike(p: Bytes, es: seq<Child>, more: seq<Record>, fs: seq<Child>, rest: seq<Record>)
    requires OrderedAll(es) && OrderedAll(fs) && !ShowsBeneath(p, more) && !ShowsBeneath(p, rest)
    requires AllAlike(RecordsAll(None, p, es) + more, RecordsAll(None, p, fs) + rest)
    ensures RereadAll(es, fs) && AllAlike(more, rest)
    decreases es, 0
  {
    EntriesShow(p, es, more);
    EntriesShow(p, fs, rest);
    var left, right := RecordsAll(None, p, es) + more, RecordsAll(None, p, fs) + rest;
    assert ShowsBeneath(p, left) <==> ShowsBeneath(p, right);
    if es == [] {
      assert [] + more == more && [] + rest == rest;
    } else {
      var first, second := RecordsAll(None, p, es[1..]) + more, RecordsAll(None, p, fs[1..]) + rest;
      ConcatAssoc(Records(None, ChildPath(p, es[0].name), es[0].node), RecordsAll(None, p, es[1..]), more);
      ConcatAssoc(Records(None, ChildPath(p, fs[0].name), fs[0].node), RecordsAll(None, p, fs[1..]), rest);
      OrderedTail(es);
      OrderedTail(fs);
      FirstEntryAlike(p, es, more, fs, rest);
      if !es[0].node.Link? {
        NextApart(p, es, more);
        NextApart(p, fs, rest);
        TreeAlike(ChildPath(p, es[0].name), es[0].node, first, fs[0].node, second);
      }
      EntriesAlike(p, es[1..], more, fs[1..], rest);
      RereadFirst(es, fs);
    }
  }

  lemma {:induction false} OrderedTail(es: seq<Child>)
    requires es != [] && OrderedAll(es)
    ensures OrderedAll(es[1..]) && RealName(es[0].name) && Ordered(es[0].node)
  {
    assert es[0] in es;
    assert forall c :: c in es[1..] ==> c in es;
  }

  lemma {:induction false} RereadFirst(es: seq<Child>, fs: seq<Child>)
    requires es != [] && fs != [] && RereadAll(es[1..], fs[1..])
    requires |es| == |fs| && RereadChild(es, fs, 0)
    ensures RereadAll(es, fs)
  {
    forall i | 0 < i < |es|
      ensures RereadChild(es, fs, i)
    {
      assert RereadChild(es[1..], fs[1..], i - 1);
      assert es[1..][i - 1] == es[i] && fs[1..][i - 1] == fs[i];
    }
  }

  lemma {:induction false} SameTextStripped(p: Bytes, a: Child, b: Child)
    requires a.node.Link? && b.node.Link?
    requires ChildPath(p, a.name) + ARROW + a.node.target == ChildPath(p, b.name) + ARROW + b.node.target
    ensures SameText(a, b)
  {
    var n := |p| + 1;
    assert (ChildPath(p, a.name) + ARROW + a.node.target)[n..] == a.name + ARROW + a.node.target;
    assert (ChildPath(p, b.name) + ARROW + b.node.target)[n..] == b.name + ARROW + b.node.target;
  }

  /** The first entries are symlinks of the same text, or have the same name. */
  lemma {:induction false} FirstEntryAlike(p: Bytes, es: seq<Child>, more: seq<Record>, fs: seq<Child>,
                                           rest: seq<Record>)
    requires es != [] && fs != []
    requires AllAlike(RecordsAll(None, p, es) + more, RecordsAll(None, p, fs) + rest)
    ensures
      var first, second := RecordsAll(None, p, es[1..]) + more, RecordsAll(None, p, fs[1..]) + rest;
      if es[0].node.Link? then fs[0].node.Link? && SameText(es[0], fs[0]) && AllAlike(first, second)
      else es[0].name == fs[0].name && !fs[0].node.Link?
  {
    var a, b := es[0], fs[0];
    var first, second := RecordsAll(None, p, es[1..]) + more, RecordsAll(None, p, fs[1..]) + rest;
    var left, right := RecordsAll(None, p, es) + more, RecordsAll(None, p, fs) + rest;
    ConcatAssoc(Records(None, ChildPath(p, a.name), a.node), RecordsAll(None, p, es[1..]), more);
    ConcatAssoc(Records(None, ChildPath(p, b.name), b.node), RecordsAll(None, p, fs[1..]), rest);
    FirstAndMore(ChildPath(p, a.name), a.node, first);
    FirstAndMore(ChildPath(p, b.name), b.node, second);
    RestAlike(left, right);
    if a.node.Link? {
      SameTextStripped(p, a, b);
    } else {
      SameChild(p, a.name, b.name);
    }
  }

  // ----- one symlink in its place -----

  /** The `i`-th entry is a symlink that can be read at another arrow, under a name that keeps its place. */
  predicate MayRead(es: seq<Child>, i: nat, name: Bytes, target: Bytes) {
    && i < |es| && es[i].node.Link? && name != es[i].name && RealName(name)
    && name + ARROW + target == es[i].name + ARROW + es[i].node.target
    && (0 < i ==> BytesLess(es[i - 1].name, name))
    && (i + 1 < |es| ==> BytesLess(name, es[i + 1].name))
  }

  /** Somewhere in the tree there is such a symlink. */
  ghost predicate Misreadable(t: Node)
    decreases t
  {
    t.Dir? && ((exists i, name, target :: MayRead(t.entries, i, name, target))
               || exists c :: c in t.entries && Misreadable(c.node))
  }

  /** Of two readings of a text the one with the shorter name has a prefix of the other's name. */
  lemma {:induction false} ReadingsNest(a: Bytes, x: Bytes, b: Bytes, y: Bytes)
    requires a + ARROW + x == b + ARROW + y && |a| <= |b|
    ensures a <= b && (|a| == |b| ==> a == b && x == y)
  {
    var text := a + ARROW + x;
    assert a == text[..|a|];
    assert b == (b + ARROW + y)[..|b|];
    assert a == b[..|a|];
    assert x == text[|a| + |ARROW|..] && y == (b + ARROW + y)[|b| + |ARROW|..];
  }

  predicate Longer(es: seq<Child>, fs: seq<Child>, i: nat)
    requires i < |es| == |fs|
  {
    |fs[i].name| > |es[i].name|
  }

  /** Two readings of a directory, entry by entry: the same name, or symlinks one of whose names is longer. */
  lemma {:induction false} RereadNames(es: seq<Child>, fs: seq<Child>, i: nat)
    requires RereadAll(es, fs) && i < |es|
    ensures es[i].name == fs[i].name || (es[i].node.Link? && fs[i].node.Link? && SameText(es[i], fs[i]))
    ensures Longer(es, fs, i) ==> es[i].name < fs[i].name
    ensures !Longer(es, fs, i) ==> fs[i].name <= es[i].name
  {
    assert RereadChild(es, fs, i);
    if es[i].node.Link? {
      var a, b := es[i], fs[i];
      if |a.name| <= |b.name| {
        ReadingsNest(a.name, a.node.target, b.name, b.node.target);
      } else {
        ReadingsNest(b.name, b.node.target, a.name, a.node.target);
      }
    }
  }

  lemma {:induction false} Neighbours(es: seq<Child>, i: nat)
    requires OrderedAll(es) && i + 1 < |es|
    ensures BytesLess(es[i].name, es[i + 1].name)
  {
    assert NameLess(es[i], es[i + 1]);
  }

  lemma {:induction false} RealAt(es: seq<Child>, i: nat)
    requires OrderedAll(es) && i < |es|
    ensures RealName(es[i].name)
  {
    assert es[i] in es;
  }

  /** A longer reading with no longer one after it keeps its place. */
  lemma {:induction false} LastLongerFits(es: seq<Child>, fs: seq<Child>, i: nat)
    requires OrderedAll(es) && OrderedAll(fs) && RereadAll(es, fs) && i < |es| && Longer(es, fs, i)
    requires i + 1 < |es| ==> !Longer(es, fs, i + 1)
    ensures fs[i].node.Link? && MayRead(es, i, fs[i].name, fs[i].node.target)
  {
    RereadNames(es, fs, i);
    RealAt(fs, i);
    PrefixLess(es[i].name, fs[i].name);
    if 0 < i {
      Neighbours(es, i - 1);
      BytesLessTransitive(es[i - 1].name, es[i].name, fs[i].name);
    }
    if i + 1 < |es| {
      RereadNames(es, fs, i + 1);
      Neighbours(fs, i);
      LessOrPrefix(fs[i].name, fs[i + 1].name, es[i + 1].name);
    }
  }

  lemma {:induction false} LessOrPrefix(a: Bytes, b: Bytes, c: Bytes)
    requires BytesLess(a, b) && b <= c
    ensures BytesLess(a, c)
  {
    if b != c {
      PrefixLess(b, c);
      BytesLessTransitive(a, b, c);
    }
  }

  /** Without longer readings, the first shorter one keeps its place. */
  lemma {:induction false} FirstShorterFits(es: seq<Child>, fs: seq<Child>, i: nat)
    requires OrderedAll(es) && OrderedAll(fs) && RereadAll(es, fs) && i < |es|
    requires !Longer(es, fs, i) && es[i].name != fs[i].name && (0 < i ==> es[i - 1].name == fs[i - 1].name)
    ensures fs[i].node.Link? && MayRead(es, i, fs[i].name, fs[i].node.target)
  {
    RereadNames(es, fs, i);
    RealAt(fs, i);
    PrefixLess(fs[i].name, es[i].name);
    if 0 < i {
      Neighbours(fs, i - 1);
    }
    if i + 1 < |es| {
      Neighbours(es, i);
      BytesLessTransitive(fs[i].name, es[i].name, es[i + 1].name);
    }
  }

  /** If two readings of a directory differ in a name, a single symlink can be read differently in its place. */
  lemma {:induction false} OneSuffices(es: seq<Child>, fs: seq<Child>, k: nat) returns (i: nat)
    requires OrderedAll(es) && OrderedAll(fs) && RereadAll(es, fs) && k < |es| && es[k].name != fs[k].name
    ensures i < |fs| && fs[i].node.Link? && MayRead(es, i, fs[i].name, fs[i].node.target)
  {
    if j :| 0 <= j < |es| && Longer(es, fs, j) {
      i := j;
      while i + 1 < |es| && Longer(es, fs, i + 1)
        invariant i < |es| && Longer(es, fs, i)
        decreases |es| - i
      {
        i := i + 1;
      }
      LastLongerFits(es, fs, i);
    } else {
      i := 0;
      while es[i].name == fs[i].name
        invariant i <= k && forall m :: 0 <= m < i ==> es[m].name == fs[m].name
        decreases k - i
      {
        i := i + 1;
      }
      FirstShorterFits(es, fs, i);
    }
  }

  /** A tree in order without such a symlink has no other reading in order. */
  lemma {:induction false} OnlyReading(t: Node, u: Node)
    requires Ordered(t) && Ordered(u) && Reread(t, u) && !Misreadable(t)
    ensures t == u
    decreases t
  {
    if t.Dir? && u.Dir? {
      var es, fs := t.entries, u.entries;
      forall i | 0 <= i < |es|
        ensures es[i] == fs[i]
      {
        assert es[i] in es && fs[i] in fs;
        if es[i].name != fs[i].name {
          var k := OneSuffices(es, fs, i);
        } else {
          assert RereadChild(es, fs, i);
          if es[i].node.Link? {
            ReadingsNest(es[i].name, es[i].node.target, fs[i].name, fs[i].node.target);
          } else {
            OnlyReading(es[i].node, fs[i].node);
          }
        }
      }
    }
  }

  // ----- the other reading -----

  lemma {:induction false} RecordsAllConcat(p: Bytes, es: seq<Child>, fs: seq<Child>)
    ensures RecordsAll(None, p, es + fs) == RecordsAll(None, p, es) + RecordsAll(None, p, fs)
  {
    if es == [] {
      assert es + fs == fs;
    } else {
      assert (es + fs)[0] == es[0] && (es + fs)[1..] == es[1..] + fs;
      RecordsAllConcat(p, es[1..], fs);
      ConcatAssoc(Records(None, ChildPath(p, es[0].name), es[0].node), RecordsAll(None, p, es[1..]),
                  RecordsAll(None, p, fs));
    }
  }

  lemma {:induction false} AlikeConcat(a: seq<Record>, b: seq<Record>, c: seq<Record>, d: seq<Record>)
    requires AllAlike(a, b) && AllAlike(c, d)
    ensures AllAlike(a + c, b + d)
  {
  }

  lemma {:induction false} AlikeItself(a: seq<Record>)
    ensures AllAlike(a, a)
  {
  }

  /** Replacing an entry by one whose records are written alike. */
  lemma {:induction false} ReplacedAlike(p: Bytes, es: seq<Child>, k: nat, c: Child)
    requires k < |es|
    requires AllAlike(Records(None, ChildPath(p, es[k].name), es[k].node), Records(None, ChildPath(p, c.name), c.node))
    ensures AllAlike(RecordsAll(None, p, es), RecordsAll(None, p, es[k := c]))
  {
    Around(es, k, c);
    EntryAt(p, es[..k], es[k], es[k + 1..]);
    EntryAt(p, es[..k], c, es[k + 1..]);
    var before, after := RecordsAll(None, p, es[..k]), RecordsAll(None, p, es[k + 1..]);
    var old', new' := Records(None, ChildPath(p, es[k].name), es[k].node), Records(None, ChildPath(p, c.name), c.node);
    AlikeItself(before);
    AlikeItself(after);
    AlikeConcat(old', new', after, after);
    AlikeConcat(before, before, old' + after, new' + after);
  }

  lemma {:induction false} EntryAt(p: Bytes, before: seq<Child>, c: Child, after: seq<Child>)
    ensures RecordsAll(None, p, before + ([c] + after))
         == RecordsAll(None, p, before) + (Records(None, ChildPath(p, c.name), c.node) + RecordsAll(None, p, after))
  {
    RecordsAllConcat(p, before, [c] + after);
    assert ([c] + after)[1..] == after;
  }

  /** Replacing an entry by one that keeps its place, and is itself in order and clean. */
  lemma {:induction false} ReplacedOrdered(es: seq<Child>, k: nat, c: Child)
    requires OrderedAll(es) && k < |es| && RealName(c.name) && Ordered(c.node)
    requires (0 < k ==> BytesLess(es[k - 1].name, c.name)) && (k + 1 < |es| ==> BytesLess(c.name, es[k + 1].name))
    ensures OrderedAll(es[k := c])
  {
    var fs := es[k := c];
    forall i, j | 0 <= i < j < |fs|
      ensures NameLess(fs[i], fs[j])
    {
      if j == k && i < k - 1 {
        assert NameLess(es[i], es[k - 1]);
        BytesLessTransitive(es[i].name, es[k - 1].name, c.name);
      } else if i == k && k + 1 < j {
        assert NameLess(es[k + 1], es[j]);
        BytesLessTransitive(c.name, es[k + 1].name, es[j].name);
      } else if i != k && j != k {
        assert NameLess(es[i], es[j]);
      }
    }
    forall d | d in fs
      ensures RealName(d.name) && Ordered(d.node)
    {
      assert d == c || d in es;
    }
  }

  lemma {:induction false} ReplacedClean(es: seq<Child>, k: nat, c: Child)
    requires CleanAll(es) && k < |es| && SLASH !in c.name && NEWLINE !in c.name && Clean(c.node)
    ensures CleanAll(es[k := c])
  {
    CleanMembers(es);
    CleanMembers(es[k := c]);
    assert forall d :: d in es[k := c] ==> d == c || d in es;
  }

  lemma {:induction false} ReadingClean(es: seq<Child>, i: nat, name: Bytes, target: Bytes)
    requires CleanAll(es) && MayRead(es, i, name, target)
    ensures NEWLINE !in name && NEWLINE !in target
  {
    CleanMembers(es);
    assert es[i] in es && Clean(es[i].node);
    var text := es[i].name + ARROW + es[i].node.target;
    assert NEWLINE !in text;
    assert forall b :: b in name ==> b in name + ARROW + target;
    assert forall b :: b in target ==> b in name + ARROW + target;
  }

  lemma {:induction false} ReadingAlike(p: Bytes, c: Child, name: Bytes, target: Bytes)
    requires c.node.Link? && name + ARROW + target == c.name + ARROW + c.node.target
    ensures AllAlike(Records(None, ChildPath(p, c.name), c.node), Records(None, ChildPath(p, name), Link(target)))
  {
    var d := p + [SLASH];
    ConcatAssoc(d, name, ARROW);
    ConcatAssoc(d, name + ARROW, target);
    ConcatAssoc(d, c.name, ARROW);
    ConcatAssoc(d, c.name + ARROW, c.node.target);
  }

  /** Another entry for the `k`-th place, whose records under `p` are written alike. */
  ghost predicate Fits(p: Bytes, es: seq<Child>, k: nat, c: Child) {
    && k < |es| && c != es[k] && RealName(c.name) && NEWLINE !in c.name && Ordered(c.node) && Clean(c.node)
    && (0 < k ==> BytesLess(es[k - 1].name, c.name)) && (k + 1 < |es| ==> BytesLess(c.name, es[k + 1].name))
    && AllAlike(Records(None, ChildPath(p, es[k].name), es[k].node), Records(None, ChildPath(p, c.name), c.node))
  }

  lemma {:induction false} FittingTree(p: Bytes, es: seq<Child>, k: nat, c: Child)
    requires OrderedAll(es) && CleanAll(es) && Fits(p, es, k, c)
    ensures
      var fs := es[k := c];
      fs != es && OrderedAll(fs) && CleanAll(fs) && AllAlike(Records(None, p, Dir(es)), Records(None, p, Dir(fs)))
  {
    var fs, own := es[k := c], [Record(p, OwnDir)];
    ReplacedOrdered(es, k, c);
    ReplacedClean(es, k, c);
    ReplacedAlike(p, es, k, c);
    assert fs[k] != es[k];
    AlikeItself(own);
    AlikeConcat(own, own, RecordsAll(None, p, es), RecordsAll(None, p, fs));
  }

  lemma {:induction false} ReadingFits(p: Bytes, es: seq<Child>, k: nat, name: Bytes, target: Bytes)
    requires OrderedAll(es) && CleanAll(es) && MayRead(es, k, name, target)
    ensures Fits(p, es, k, Child(name, Link(target)))
  {
    ReadingClean(es, k, name, target);
    ReadingAlike(p, es[k], name, target);
  }

  lemma {:induction false} InnerFits(p: Bytes, es: seq<Child>, k: nat, inner: Node)
    requires OrderedAll(es) && CleanAll(es) && k < |es| && inner != es[k].node && Ordered(inner) && Clean(inner)
    requires AllAlike(Records(None, ChildPath(p, es[k].name), es[k].node), Records(None, ChildPath(p, es[k].name), inner))
    ensures Fits(p, es, k, Child(es[k].name, inner))
  {
    KeptPlace(es, k);
    CleanMembers(es);
    assert es[k] in es;
  }

  /** A clean tree in order with such a symlink is written like another one. */
  lemma {:induction false} OtherReading(p: Bytes, t: Node) returns (u: Node)
    requires Ordered(t) && Clean(t) && Misreadable(t)
    ensures u.Dir? && Ordered(u) && Clean(u) && u != t
    ensures AllAlike(Records(None, p, t), Records(None, p, u))
    decreases t
  {
    var es := t.entries;
    var k: nat, c: Child;
    if i, name, target :| MayRead(es, i, name, target) {
      k, c := i, Child(name, Link(target));
      ReadingFits(p, es, k, name, target);
    } else {
      var d :| d in es && Misreadable(d.node);
      k :| k < |es| && es[k] == d;
      CleanMembers(es);
      var inner := OtherReading(ChildPath(p, d.name), d.node);
      c := Child(d.name, inner);
      InnerFits(p, es, k, inner);
    }
    FittingTree(p, es, k, c);
    u := Dir(es[k := c]);
  }

  lemma {:induction false} KeptPlace(es: seq<Child>, k: nat)
    requires OrderedAll(es) && k < |es|
    ensures RealName(es[k].name)
    ensures (0 < k ==> BytesLess(es[k - 1].name, es[k].name)) && (k + 1 < |es| ==> BytesLess(es[k].name, es[k + 1].name))
  {
    RealAt(es, k);
    if 0 < k {
      Neighbours(es, k - 1);
    }
    if k + 1 < |es| {
      Neighbours(es, k);
    }
  }

  // ----- the exact condition -----

  /** Putting a tree in order that is in order already changes nothing. */
  lemma {:induction false} OrderedNormal(t: Node)
    requires Ordered(t)
    ensures Normal(t) == t && WellNamed(t)
    decreases t
  {
    if t.Dir? {
      var es, all := t.entries, NormalAll(t.entries);
      forall i | 0 <= i < |es|
        ensures all[i] == es[i]
      {
        assert es[i] in es;
        OrderedNormal(es[i].node);
      }
      assert all == es;
      SortedAlready(es);
      forall c | c in es
        ensures RealName(c.name) && WellNamed(c.node)
      {
        OrderedNormal(c.node);
      }
    }
  }

  lemma {:induction false} SortedAlready(es: seq<Child>)
    requires Ascending(NameLess, es)
    ensures Sort(NameLess, es) == es && DistinctNames(es)
  {
    forall i, j | 0 <= i < j < |es|
      ensures es[i].name != es[j].name
    {
      assert NameLess(es[i], es[j]);
      BytesLessIrreflexive(es[i].name);
    }
    NameOrder();
    SortAscending(NameLess, es);
    forall c
      ensures c in Sort(NameLess, es) <==> c in es
    {
      InMultiset(Sort(NameLess, es), es, c);
    }
    AscendingUnique(NameLess, Sort(NameLess, es), es);
  }

  lemma {:induction false} CleanLines(p: Bytes, t: Node)
    requires Clean(t) && NEWLINE !in p
    ensures AllOneLine(Records(None, p, Normal(t)))
  {
    NormalClean(t);
    RecordsOneLine(p, Normal(t));
  }

  /**
    * Trees that are written alike under one label are the same unless a symlink can be read differently in its
    * place.
    */
  lemma {:induction false} AlikeDetermines(p: Bytes, t: Node, u: Node)
    requires WellNamed(t) && WellNamed(u) && Clean(t) && Clean(u) && NEWLINE !in p && !Misreadable(Normal(t))
    requires Stream(None, p, u) == Stream(None, p, t)
    ensures Normal(u) == Normal(t)
  {
    CleanLines(p, t);
    CleanLines(p, u);
    NormalOrdered(t);
    NormalOrdered(u);
    var left, right := Records(None, p, Normal(t)), Records(None, p, Normal(u));
    StreamAlike(left, right);
    assert left + [] == left && right + [] == right;
    TreeAlike(p, Normal(t), [], Normal(u), []);
    OnlyReading(Normal(t), Normal(u));
  }

  /**
    * A clean tree is the only one with its stream, under its label and up to the order of listings, exactly if no
    * symlink in it can be read at another arrow under a name that keeps its place among its siblings.
    */
  lemma {:induction false} TreeDeterminedExactly(p: Bytes, t: Node)
    requires WellNamed(t) && Clean(t) && NEWLINE !in p
    ensures (forall u :: WellNamed(u) && Clean(u) && Stream(None, p, u) == Stream(None, p, t) ==> Normal(u) == Normal(t))
       <==> !Misreadable(Normal(t))
  {
    if Misreadable(Normal(t)) {
      NormalOrdered(t);
      NormalClean(t);
      var u := OtherReading(p, Normal(t));
      OrderedNormal(u);
      AllAlikeWritten(Records(None, p, Normal(t)), Records(None, p, u));
    } else {
      forall u | WellNamed(u) && Clean(u) && Stream(None, p, u) == Stream(None, p, t)
        ensures Normal(u) == Normal(t)
      {
        AlikeDetermines(p, t, u);
      }
    }
  }
}
