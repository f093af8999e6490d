/** What the digest's byte stream determines, and what it does not depend on. */
module DigestLaws {
  import opened Seqs
  import opened ByteStrings
  import opened Sorting
  import opened DigestRecords
  import opened ContentDigest

  // ----- from the records back to the tree -----

  /** No name holds a slash or a newline, and no link target a newline. */
  predicate Clean(node: Node) {
    match node
    case File(_) => true
    case Link(target) => NEWLINE !in target
    case Dir(entries) => CleanAll(entries)
  }

  predicate CleanAll(entries: seq<Child>) {
    entries == [] ||
    (SLASH !in entries[0].name && NEWLINE !in entries[0].name && Clean(entries[0].node) && CleanAll(entries[1..]))
  }

  /** No name holds a slash; names and targets may hold anything else. */
  predicate SlashFree(node: Node) {
    node.Dir? ==> SlashFreeAll(node.entries)
  }

  predicate SlashFreeAll(entries: seq<Child>) {
    entries == [] || (SLASH !in entries[0].name && SlashFree(entries[0].node) && SlashFreeAll(entries[1..]))
  }

  lemma {:induction false} CleanSlashFree(t: Node)
    requires Clean(t)
    ensures SlashFree(t)
    decreases t, 1
  {
    if t.Dir? {
      CleanSlashFreeAll(t.entries);
    }
  }

  lemma {:induction false} CleanSlashFreeAll(es: seq<Child>)
    requires CleanAll(es)
    ensures SlashFreeAll(es)
    decreases es, 0
  {
    if es == [] {
    } else {
      CleanSlashFree(es[0].node);
      CleanSlashFreeAll(es[1..]);
    }
  }

  predicate Beneath(path: Bytes, other: Bytes) {
    |path| < |other| && other[..|path|] == path && other[|path|] == SLASH
  }

  predicate GoesBeneath(path: Bytes, rs: seq<Record>) {
    rs != [] && Beneath(path, rs[0].path)
  }

  lemma {:induction false} ChildBeneath(path: Bytes, name: Bytes)
    ensures Beneath(path, ChildPath(path, name))
  {
  }

  lemma {:induction false} SameChild(path: Bytes, a: Bytes, b: Bytes)
    requires ChildPath(path, a) == ChildPath(path, b)
    ensures a == b
  {
    assert ChildPath(path, a)[|path| + 1..] == a && ChildPath(path, b)[|path| + 1..] == b;
  }

  /** The records of a tree, followed by records of something else, determine the tree and the rest. */
  lemma {:induction false} TreeFromRecords(p: Bytes, t: Node, more: seq<Record>, q: Bytes, u: Node, rest: seq<Record>)
    requires SlashFree(t) && SlashFree(u) && !GoesBeneath(p, more) && !GoesBeneath(q, rest)
    requires Records(None, p, t) + more == Records(None, q, u) + rest
    ensures p == q && t == u && more == rest
    decreases t, 1
  {
    FirstAndMore(p, t, more);
    FirstAndMore(q, u, rest);
    if t.Dir? {
      EntriesFromRecords(p, t.entries, more, u.entries, rest);
    }
  }

  lemma {:induction false} FirstAndMore(p: Bytes, t: Node, more: seq<Record>)
    ensures
      var all := Records(None, p, t) + more;
      && all != [] && all[0] == Record(p, OwnOf(t))
      && all[1..] == if t.Dir? then RecordsAll(None, p, t.entries) + more else more
  {
    var inner := if t.Dir? then RecordsAll(None, p, t.entries) else [];
    assert Records(None, p, t) + more == [Record(p, OwnOf(t))] + (inner + more);
    assert [] + more == more;
  }

  lemma {:induction false} EntriesFromRecords(p: Bytes, es: seq<Child>, more: seq<Record>, fs: seq<Child>,
                                              rest: seq<Record>)
    requires SlashFreeAll(es) && SlashFreeAll(fs) && !GoesBeneath(p, more) && !GoesBeneath(p, rest)
    requires RecordsAll(None, p, es) + more == RecordsAll(None, p, fs) + rest
    ensures es == fs && more == rest
    decreases es, 0
  {
    EntriesBegin(p, es, more);
    EntriesBegin(p, fs, rest);
    if es == [] {
      assert [] + more == more;
      assert fs == [];
      assert [] + rest == rest;
    } else {
      assert fs != [];
      var a, b := es[0], fs[0];
      var first, second := RecordsAll(None, p, es[1..]) + more, RecordsAll(None, p, fs[1..]) + rest;
      ConcatAssoc(Records(None, ChildPath(p, a.name), a.node), RecordsAll(None, p, es[1..]), more);
      ConcatAssoc(Records(None, ChildPath(p, b.name), b.node), RecordsAll(None, p, fs[1..]), rest);
      EntriesBegin(p, es[1..], more);
      EntriesBegin(p, fs[1..], rest);
      SiblingsApart(p, a.name, es[1..], more);
      SiblingsApart(p, b.name, fs[1..], rest);
      TreeFromRecords(ChildPath(p, a.name), a.node, first, ChildPath(p, b.name), b.node, second);
      SameChild(p, a.name, b.name);
      EntriesFromRecords(p, es[1..], more, fs[1..], rest);
    }
  }

  /** The records of a directory's entries begin with the first entry's own path. */
  lemma {:induction false} EntriesBegin(p: Bytes, es: seq<Child>, more: seq<Record>)
    ensures
      var all := RecordsAll(None, p, es) + more;
      if es == [] then all == more else GoesBeneath(p, all) && all[0].path == ChildPath(p, es[0].name)
  {
  }

  lemma {:induction false} SiblingsApart(p: Bytes, name: Bytes, others: seq<Child>, more: seq<Record>)
    requires SlashFreeAll(others) && !GoesBeneath(p, more)
    ensures !GoesBeneath(ChildPath(p, name), RecordsAll(None, p, others) + more)
  {
  }

  // ----- the stream determines the tree -----

  /** The whole tree is on one line each: its root path holds no newline either. */
  lemma {:induction false} RecordsOneLine(p: Bytes, t: Node)
    requires Clean(t) && NEWLINE !in p
    ensures forall r :: r in Records(None, p, t) ==> OneLine(r)
    decreases t, 1
  {
    if t.Dir? {
      RecordsAllOneLine(p, t.entries);
    }
  }

  lemma {:induction false} RecordsAllOneLine(p: Bytes, es: seq<Child>)
    requires CleanAll(es) && NEWLINE !in p
    ensures forall r :: r in RecordsAll(None, p, es) ==> OneLine(r)
    decreases es, 0
  {
    if es == [] {
    } else {
      RecordsOneLine(ChildPath(p, es[0].name), es[0].node);
      RecordsAllOneLine(p, es[1..]);
    }
  }

  lemma {:induction false} CleanMembers(es: seq<Child>)
    ensures CleanAll(es) <==> forall c :: c in es ==> SLASH !in c.name && NEWLINE !in c.name && Clean(c.node)
  {
    if es == [] {
    } else {
      CleanMembers(es[1..]);
      assert es == [es[0]] + es[1..];
    }
  }

  lemma {:induction false} NormalClean(t: Node)
    requires Clean(t)
    ensures Clean(Normal(t))
    decreases t, 1
  {
    if t.Dir? {
      NormalAllClean(t.entries);
      var all := NormalAll(t.entries);
      CleanMembers(all);
      CleanMembers(Sort(NameLess, all));
      forall c | c in Sort(NameLess, all)
        ensures c in all
      {
        InMultiset(Sort(NameLess, all), all, c);
      }
    }
  }

  lemma {:induction false} NormalAllClean(es: seq<Child>)
    requires CleanAll(es)
    ensures CleanAll(NormalAll(es))
    decreases es, 0
  {
    if es == [] {
    } else {
      NormalClean(es[0].node);
      NormalAllClean(es[1..]);
    }
  }

  /** Every symlink of the tree shows its arrow once. */
  ghost predicate Unambiguous(p: Bytes, t: Node) {
    forall r :: r in Records(None, p, Normal(t)) ==> OneArrow(r)
  }

  /**
    * Two clean trees, of which one has unambiguous symlinks, feed the hasher the same bytes exactly when they have
    * the same label and are the same up to the order of directory listings, whatever bytes their files hold.
    */
  lemma {:induction false} StreamDeterminesTree(p: Bytes, t: Node, q: Bytes, u: Node)
    requires Clean(t) && Clean(u) && NEWLINE !in p && NEWLINE !in q && Unambiguous(p, t)
    ensures Stream(None, p, t) == Stream(None, q, u) <==> p == q && Normal(t) == Normal(u)
  {
    if Stream(None, p, t) == Stream(None, q, u) {
      NormalClean(t);
      NormalClean(u);
      CleanSlashFree(Normal(t));
      CleanSlashFree(Normal(u));
      RecordsOneLine(p, Normal(t));
      RecordsOneLine(q, Normal(u));
      var left, right := Records(None, p, Normal(t)), Records(None, q, Normal(u));
      StreamDeterminesRecords(left, right);
      assert left + [] == left && right + [] == right;
      TreeFromRecords(p, Normal(t), [], q, Normal(u), []);
    }
  }

  predicate CleanSource(s: Source) {
    NEWLINE !in s.path && Clean(s.node)
  }

  /** No source is beneath the one before it. */
  predicate Apart(sources: seq<Source>) {
    forall i :: 0 < i < |sources| ==> !Beneath(sources[i - 1].path, sources[i].path)
  }

  /** The same labels and, up to listing order, the same trees. */
  predicate SameSources(a: seq<Source>, b: seq<Source>) {
    |a| == |b| && forall i :: 0 <= i < |a| ==> a[i].path == b[i].path && Normal(a[i].node) == Normal(b[i].node)
  }

  lemma {:induction false} SourcesBegin(a: seq<Source>)
    ensures a != [] ==> SourceRecords(None, a) != [] && SourceRecords(None, a)[0].path == a[0].path
  {
  }

  lemma {:induction false} RecordsDetermineSources(a: seq<Source>, b: seq<Source>)
    requires (forall s :: s in a ==> CleanSource(s)) && (forall s :: s in b ==> CleanSource(s)) && Apart(a) && Apart(b)
    requires SourceRecords(None, a) == SourceRecords(None, b)
    ensures SameSources(a, b)
    decreases |a|
  {
    SourcesBegin(a);
    SourcesBegin(b);
    if a == [] || b == [] {
    } else {
      FirstSource(a, b);
      RecordsDetermineSources(a[1..], b[1..]);
      SameFromFirst(a, b);
    }
  }

  lemma {:induction false} SameFromFirst(a: seq<Source>, b: seq<Source>)
    requires a != [] && b != [] && SameSources(a[..1], b[..1]) && SameSources(a[1..], b[1..])
    ensures SameSources(a, b)
  {
    assert a[0] == a[..1][0] && b[0] == b[..1][0];
    assert forall i :: 0 < i < |a| ==> a[i] == a[1..][i - 1] && b[i] == b[1..][i - 1];
  }

  lemma {:induction false} FirstSource(a: seq<Source>, b: seq<Source>)
    requires a != [] && b != []
    requires (forall s :: s in a ==> CleanSource(s)) && (forall s :: s in b ==> CleanSource(s)) && Apart(a) && Apart(b)
    requires SourceRecords(None, a) == SourceRecords(None, b)
    ensures SameSources(a[..1], b[..1]) && SourceRecords(None, a[1..]) == SourceRecords(None, b[1..])
  {
    FirstApart(a);
    FirstApart(b);
    TreeFromRecords(a[0].path, Normal(a[0].node), SourceRecords(None, a[1..]),
                    b[0].path, Normal(b[0].node), SourceRecords(None, b[1..]));
  }

  lemma {:induction false} FirstApart(a: seq<Source>)
    requires a != [] && (forall s :: s in a ==> CleanSource(s)) && Apart(a)
    ensures SlashFree(Normal(a[0].node)) && !GoesBeneath(a[0].path, SourceRecords(None, a[1..]))
  {
    SourcesBegin(a[1..]);
    assert CleanSource(a[0]);
    NormalClean(a[0].node);
    CleanSlashFree(Normal(a[0].node));
    if |a| > 1 {
      assert !Beneath(a[1 - 1].path, a[1].path);
    }
  }

  lemma {:induction false} SourceRecordsAre(a: seq<Source>)
    requires forall s :: s in a ==> CleanSource(s)
    ensures forall r :: r in SourceRecords(None, a) ==> OneLine(r)
    ensures (forall s :: s in a ==> Unambiguous(s.path, s.node)) ==> forall r :: r in SourceRecords(None, a) ==> OneArrow(r)
    decreases |a|
  {
    if a == [] {
    } else {
      assert a[0] in a;
      NormalClean(a[0].node);
      RecordsOneLine(a[0].path, Normal(a[0].node));
      SourceRecordsAre(a[1..]);
    }
  }

  lemma {:induction false} SameSourcesSameRecords(a: seq<Source>, b: seq<Source>)
    requires SameSources(a, b)
    ensures SourceRecords(None, a) == SourceRecords(None, b)
    decreases |a|
  {
    if a == [] {
    } else {
      SameSourcesSameRecords(a[1..], b[1..]);
    }
  }

  /** The same for all the sources of one instruction: their concatenated streams determine every one of them. */
  lemma {:induction false} StreamDeterminesSources(a: seq<Source>, b: seq<Source>)
    requires (forall s :: s in a ==> CleanSource(s) && Unambiguous(s.path, s.node)) && Apart(a)
    requires (forall s :: s in b ==> CleanSource(s)) && Apart(b)
    ensures SourcesStream(None, a) == SourcesStream(None, b) <==> SameSources(a, b)
  {
    if SourcesStream(None, a) == SourcesStream(None, b) {
      SourceRecordsAre(a);
      SourceRecordsAre(b);
      StreamDeterminesRecords(SourceRecords(None, a), SourceRecords(None, b));
      RecordsDetermineSources(a, b);
    }
    if SameSources(a, b) {
      SameSourcesSameRecords(a, b);
    }
  }

  ghost predicate DistinctNames(es: seq<Child>) {
    forall i, j :: 0 <= i < j < |es| ==> es[i].name != es[j].name
  }

  lemma {:induction false} NameOrder()
    ensures StrictOrder(NameLess)
  {
    forall a: Child
      ensures !NameLess(a, a)
    {
      BytesLessIrreflexive(a.name);
    }
    forall a: Child, b: Child, c: Child | NameLess(a, b) && NameLess(b, c)
      ensures NameLess(a, c)
    {
      BytesLessTransitive(a.name, b.name, c.name);
    }
  }

  lemma {:induction false} NamesComparable(es: seq<Child>)
    requires DistinctNames(es)
    ensures Comparable(NameLess, es)
  {
    forall i, j | 0 <= i < j < |es|
      ensures NameLess(es[i], es[j]) || NameLess(es[j], es[i])
    {
      BytesLessTotal(es[i].name, es[j].name);
    }
  }

  predicate HasName(es: seq<Child>, name: Bytes) {
    exists c :: c in es && c.name == name
  }

  /** The first entry of this name. */
  function Get(es: seq<Child>, name: Bytes): (c: Child)
    requires HasName(es, name)
    ensures c in es && c.name == name
  {
    if es[0].name == name then es[0] else
    assert es == [es[0]] + es[1..];
    Get(es[1..], name)
  }

  lemma {:induction false} GetMember(es: seq<Child>, c: Child)
    requires DistinctNames(es) && c in es
    ensures HasName(es, c.name) && Get(es, c.name) == c
  {
  }

  /** The same tree, with the directories at any level listed in another order. */
  ghost predicate Shuffled(t: Node, u: Node)
    decreases t
  {
    match t
    case File(_) => t == u
    case Link(_) => t == u
    case Dir(es) =>
      && u.Dir? && DistinctNames(es) && DistinctNames(u.entries)
      && (forall d :: d in u.entries ==> HasName(es, d.name))
      && (forall c :: c in es ==> HasName(u.entries, c.name) && Shuffled(c.node, Get(u.entries, c.name).node))
  }

  lemma {:induction false} NormalMember(es: seq<Child>, c: Child)
    requires c in es
    ensures Child(c.name, Normal(c.node)) in NormalAll(es)
  {
  }

  lemma {:induction false} MembersForth(t: Node, u: Node, x: Child)
    requires t.Dir? && Shuffled(t, u) && x in NormalAll(t.entries)
    ensures x in NormalAll(u.entries)
    decreases t, 0
  {
    var i :| 0 <= i < |t.entries| && NormalAll(t.entries)[i] == x;
    var c := t.entries[i];
    var d := Get(u.entries, c.name);
    ShuffledNormal(c.node, d.node);
    NormalMember(u.entries, d);
  }

  lemma {:induction false} MembersBack(t: Node, u: Node, x: Child)
    requires t.Dir? && Shuffled(t, u) && x in NormalAll(u.entries)
    ensures x in NormalAll(t.entries)
    decreases t, 0
  {
    var i :| 0 <= i < |u.entries| && NormalAll(u.entries)[i] == x;
    var d := u.entries[i];
    var c := Get(t.entries, d.name);
    GetMember(u.entries, d);
    ShuffledNormal(c.node, d.node);
    NormalMember(t.entries, c);
  }

  lemma {:induction false} ShuffledNormal(t: Node, u: Node)
    requires Shuffled(t, u)
    ensures Normal(t) == Normal(u)
    decreases t, 1
  {
    if t.Dir? {
      var es, fs := NormalAll(t.entries), NormalAll(u.entries);
      forall x
        ensures x in es <==> x in fs
      {
        if x in es {
          MembersForth(t, u, x);
        }
        if x in fs {
          MembersBack(t, u, x);
        }
      }
      NameOrder();
      NamesComparable(es);
      NamesComparable(fs);
      SortOrderIrrelevant(NameLess, es, fs);
    }
  }

  /** The order in which directories are listed, at any level, does not reach the hasher. */
  lemma {:induction false} ListingOrderIrrelevant(ignore: Option<Ignore>, p: Bytes, t: Node, u: Node)
    requires Shuffled(t, u)
    ensures Stream(ignore, p, t) == Stream(ignore, p, u)
  {
    ShuffledNormal(t, u);
  }
}
