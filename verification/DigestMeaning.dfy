/** The bytes fed to the hasher, spelled out, and the order in which a tree's paths come. */
module DigestMeaning {
  import opened Seqs
  import opened ByteStrings
  import opened Sorting
  import opened DigestRecords
  import opened ContentDigest
  import opened DigestLaws
  import opened DigestIgnore

  // ----- one record -----

  /** A record is `F`, the path, the length and the bytes; `L`, the path and the target; or `D` and the path. */
  lemma {:induction false} RecordSpelled(r: Record)
    ensures
      Write(r)
      == match r.own
         case OwnFile(content) => [70, 32] + (r.path + [32] + Decimal(|content|)) + [10] + content
         case OwnLink(target) => [76, 32] + (r.path + [32, 45, 62, 32] + target) + [10]
         case OwnDir => [68, 32] + r.path + [10]
  {
    assert Header(r) + [NEWLINE] + [] == Header(r) + [NEWLINE];
  }

  /** A length is written in decimal digits, without leading zeros. */
  lemma {:induction false} DecimalPlain(n: nat)
    ensures Decimal(n) != [] && (forall d :: d in Decimal(n) ==> 48 <= d <= 57)
    ensures Decimal(n)[0] == 48 ==> n == 0 && |Decimal(n)| == 1
  {
    if n < 10 {
    } else {
      DecimalPlain(n / 10);
    }
  }

  // ----- the walk -----

  /** A directory comes before its entries, each of which is walked under its own path, in the order listed. */
  lemma {:induction false} DirectoryWalk(ignore: Option<Ignore>, p: Bytes, es: seq<Child>)
    requires !Ignored(ignore, p)
    ensures Records(ignore, p, Dir(es)) == [Record(p, OwnDir)] + RecordsAll(ignore, p, es)
  {
  }

  lemma {:induction false} EntriesWalk(ignore: Option<Ignore>, p: Bytes, es: seq<Child>, c: Child, fs: seq<Child>)
    ensures RecordsAll(ignore, p, es + ([c] + fs))
         == RecordsAll(ignore, p, es) + (Records(ignore, p + [47] + c.name, c.node) + RecordsAll(ignore, p, fs))
  {
    if es == [] {
      assert es + ([c] + fs) == [c] + fs;
      assert ([c] + fs)[1..] == fs;
    } else {
      assert (es + ([c] + fs))[1..] == es[1..] + ([c] + fs);
      EntriesWalk(ignore, p, es[1..], c, fs);
      ConcatAssoc(Records(ignore, ChildPath(p, es[0].name), es[0].node), RecordsAll(ignore, p, es[1..]),
                  Records(ignore, p + [47] + c.name, c.node) + RecordsAll(ignore, p, fs));
    }
  }

  /** A file and a symlink are recorded with what they hold, unless ignored. */
  lemma {:induction false} LeafWalk(ignore: Option<Ignore>, p: Bytes, content: Bytes)
    ensures Records(ignore, p, File(content)) == if Ignored(ignore, p) then [] else [Record(p, OwnFile(content))]
    ensures Records(ignore, p, Link(content)) == if Ignored(ignore, p) then [] else [Record(p, OwnLink(content))]
  {
  }

  /** An ignored directory is walked without its own record if there is a negation, and skipped otherwise. */
  lemma {:induction false} IgnoredWalk(ignore: Ignore, p: Bytes, es: seq<Child>)
    requires ignore.ignored(p)
    ensures Records(Some(ignore), p, Dir(es)) == if ignore.hasNegation then RecordsAll(Some(ignore), p, es) else []
    ensures !Ignored(None, p)
  {
  }

  /** A proper prefix comes first, and otherwise the smaller byte where two names first differ. */
  predicate ByteOrder(a: Bytes, b: Bytes) {
    a < b || exists k :: 0 <= k < |a| && k < |b| && a[..k] == b[..k] && a[k] < b[k]
  }

  /** Entries are visited in the byte order of their names, however the directory lists them: all of them, once. */
  lemma {:induction false} EntriesInByteOrder(es: seq<Child>)
    requires DistinctNames(es)
    ensures Normal(Dir(es)).Dir? && |Normal(Dir(es)).entries| == |es|
    ensures
      var visited := Normal(Dir(es)).entries;
      && (forall i, j :: 0 <= i < j < |visited| ==> ByteOrder(visited[i].name, visited[j].name))
      && (forall c :: c in visited <==> exists d :: d in es && c == Child(d.name, Normal(d.node)))
  {
    var all := NormalAll(es);
    var visited := Sort(NameLess, all);
    NameOrder();
    NamesComparable(all);
    SortAscending(NameLess, all);
    forall i, j | 0 <= i < j < |visited|
      ensures ByteOrder(visited[i].name, visited[j].name)
    {
      assert NameLess(visited[i], visited[j]);
      BytesLessMeans(visited[i].name, visited[j].name);
    }
    forall c
      ensures c in visited <==> exists d :: d in es && c == Child(d.name, Normal(d.node))
    {
      InMultiset(visited, all, c);
      if c in all {
        var i :| 0 <= i < |all| && all[i] == c;
        assert es[i] in es;
      }
      if d :| d in es && c == Child(d.name, Normal(d.node)) {
        var i :| 0 <= i < |es| && es[i] == d;
        assert all[i] == c;
      }
    }
  }

  // ----- several sources -----

  /** The sources' own streams, one after the other. */
  lemma {:induction false} SourcesInOrder(ignore: Option<Ignore>, sources: seq<Source>, last: Source)
    ensures SourcesStream(ignore, sources + [last])
         == SourcesStream(ignore, sources) + Stream(ignore, last.path, last.node)
  {
    RecordsInOrder(ignore, sources, last);
    WriteAllConcat(SourceRecords(ignore, sources), Records(ignore, last.path, Normal(last.node)));
  }

  lemma {:induction false} RecordsInOrder(ignore: Option<Ignore>, sources: seq<Source>, last: Source)
    ensures SourceRecords(ignore, sources + [last])
         == SourceRecords(ignore, sources) + Records(ignore, last.path, Normal(last.node))
  {
    if sources == [] {
      assert [] + [last] == [last] && [last][1..] == [];
    } else {
      assert (sources + [last])[1..] == sources[1..] + [last];
      RecordsInOrder(ignore, sources[1..], last);
      ConcatAssoc(Records(ignore, sources[0].path, Normal(sources[0].node)), SourceRecords(ignore, sources[1..]),
                  Records(ignore, last.path, Normal(last.node)));
    }
  }
}
