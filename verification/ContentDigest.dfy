/** `hash_path`: the walk over a source tree that feeds the content digest. */
module ContentDigest {
  import opened Seqs
  import opened ByteStrings
  import opened Sorting
  import opened DigestRecords

  /** A source tree; a directory lists its entries in the order the file system happens to return them. */
  datatype Node = File(content: Bytes) | Link(target: Bytes) | Dir(entries: seq<Child>)
  datatype Child = Child(name: Bytes, node: Node)

  /** A compiled `.dockerignore`: which paths it ignores, and whether any of its patterns is negated. */
  datatype Ignore = Ignore(ignored: Bytes -> bool, hasNegation: bool)

  function ChildPath(path: Bytes, name: Bytes): Bytes {
    path + [SLASH] + name
  }

  const CURRENT_DIR: Bytes := [46]
  const PARENT_DIR: Bytes := [46, 46]

  /** A name that a directory can list. */
  predicate RealName(name: Bytes) {
    name != [] && SLASH !in name && name != CURRENT_DIR && name != PARENT_DIR
  }

  function OwnOf(node: Node): Own {
    match node
    case File(content) => OwnFile(content)
    case Link(target) => OwnLink(target)
    case Dir(_) => OwnDir
  }

  predicate Ignored(ignore: Option<Ignore>, path: Bytes) {
    ignore.Some? && ignore.value.ignored(path)
  }

  predicate NameLess(a: Child, b: Child) {
    BytesLess(a.name, b.name)
  }

  // ----- the walk, over a tree whose directories are already in order -----

  function Records(ignore: Option<Ignore>, path: Bytes, node: Node): seq<Record>
    decreases node
  {
    if Ignored(ignore, path) then
      if node.Dir? && ignore.value.hasNegation then RecordsAll(ignore, path, node.entries) else []
    else
      [Record(path, OwnOf(node))] + (if node.Dir? then RecordsAll(ignore, path, node.entries) else [])
  }

  function RecordsAll(ignore: Option<Ignore>, path: Bytes, entries: seq<Child>): seq<Record>
    decreases entries
  {
    if entries == [] then []
    else Records(ignore, ChildPath(path, entries[0].name), entries[0].node) + RecordsAll(ignore, path, entries[1..])
  }

  // ----- putting directories in order -----

  function Normal(node: Node): Node {
    if node.Dir? then Dir(Sort(NameLess, NormalAll(node.entries))) else node
  }

  function NormalAll(entries: seq<Child>): (r: seq<Child>)
    ensures |r| == |entries|
    ensures forall i :: 0 <= i < |r| ==> r[i] == Child(entries[i].name, Normal(entries[i].node))
  {
    if entries == [] then []
    else [Child(entries[0].name, Normal(entries[0].node))] + NormalAll(entries[1..])
  }

  /** The bytes fed to the hasher for one source. */
  function Stream(ignore: Option<Ignore>, path: Bytes, node: Node): Bytes {
    WriteAll(Records(ignore, path, Normal(node)))
  }

  /** Sorting by name and normalizing the entries can be done in either order. */
  lemma {:induction false} InsertNormal(x: Child, s: seq<Child>)
    ensures NormalAll(Insert(NameLess, x, s)) == Insert(NameLess, Child(x.name, Normal(x.node)), NormalAll(s))
  {
    if s == [] || !NameLess(s[0], x) {
    } else {
      InsertNormal(x, s[1..]);
    }
  }

  lemma {:induction false} SortNormal(s: seq<Child>)
    ensures NormalAll(Sort(NameLess, s)) == Sort(NameLess, NormalAll(s))
  {
    if s == [] {
    } else {
      SortNormal(s[1..]);
      InsertNormal(s[0], Sort(NameLess, s[1..]));
    }
  }

  // ----- the walk as it feeds the hasher -----

  function Size(node: Node): (n: nat)
    ensures 1 <= n
  {
    1 + if node.Dir? then SizeAll(node.entries) else 0
  }

  function SizeAll(entries: seq<Child>): nat {
    if entries == [] then 0 else Size(entries[0].node) + SizeAll(entries[1..])
  }

  lemma {:induction false} SizeOfMember(entries: seq<Child>, c: Child)
    requires c in entries
    ensures Size(c.node) <= SizeAll(entries)
  {
    if c != entries[0] {
      assert c in entries[1..];
      SizeOfMember(entries[1..], c);
    }
  }

  lemma {:induction false} NextEntry(ignore: Option<Ignore>, path: Bytes, all: seq<Child>, i: nat, before: Bytes)
    requires i < |all|
    ensures before + WriteAll(RecordsAll(ignore, path, all[i..]))
         == (before + WriteAll(Records(ignore, ChildPath(path, all[i].name), all[i].node)))
            + WriteAll(RecordsAll(ignore, path, all[i + 1..]))
  {
    var first := Records(ignore, ChildPath(path, all[i].name), all[i].node);
    var others := RecordsAll(ignore, path, all[i + 1..]);
    assert all[i..][0] == all[i] && all[i..][1..] == all[i + 1..];
    WriteAllConcat(first, others);
    ConcatAssoc(before, WriteAll(first), WriteAll(others));
  }

  class Hasher {
    var data: Bytes

    method Write(text: Bytes)
      modifies this
      ensures data == old(data) + text
    {
      data := data + text;
    }
  }

  method HashEntries(path: Bytes, node: Node, ignore: Option<Ignore>, hasher: Hasher)
    requires node.Dir?
    modifies hasher
    ensures hasher.data == old(hasher.data) + WriteAll(RecordsAll(ignore, path, Normal(node).entries))
    decreases Size(node), 0
  {
    var entries := Sort(NameLess, node.entries);
    SortNormal(node.entries);
    ghost var all := NormalAll(entries);
    ghost var goal := hasher.data + WriteAll(RecordsAll(ignore, path, all));
    var i := 0;
    assert all[0..] == all;
    while i < |entries|
      invariant i <= |entries|
      invariant goal == hasher.data + WriteAll(RecordsAll(ignore, path, all[i..]))
    {
      InMultiset(entries, node.entries, entries[i]);
      SizeOfMember(node.entries, entries[i]);
      NextEntry(ignore, path, all, i, hasher.data);
      HashPath(ChildPath(path, entries[i].name), entries[i].node, ignore, hasher);
      i := i + 1;
    }
  }

  method HashPath(path: Bytes, node: Node, ignore: Option<Ignore>, hasher: Hasher)
    modifies hasher
    ensures hasher.data == old(hasher.data) + Stream(ignore, path, node)
    decreases Size(node), 1
  {
    if Ignored(ignore, path) {
      if node.Dir? && ignore.value.hasNegation {
        HashEntries(path, node, ignore, hasher);
      } else {
        assert Records(ignore, path, Normal(node)) == [];
      }
      return;
    }
    var own := Record(path, OwnOf(node));
    WriteOne(own);
    match node {
      case Link(target) =>
        hasher.Write(Header(own) + [NEWLINE]);
        assert Records(ignore, path, Normal(node)) == [own];
      case Dir(_) =>
        ghost var before := hasher.data;
        hasher.Write(Header(own) + [NEWLINE]);
        HashEntries(path, node, ignore, hasher);
        ghost var below := RecordsAll(ignore, path, Normal(node).entries);
        WriteAllConcat([own], below);
        ConcatAssoc(before, Write(own), WriteAll(below));
      case File(content) =>
        ghost var before := hasher.data;
        hasher.Write(Header(own) + [NEWLINE]);
        hasher.Write(content);
        ConcatAssoc(before, Header(own) + [NEWLINE], content);
        assert Records(ignore, path, Normal(node)) == [own];
    }
  }

  lemma {:induction false} WriteOne(r: Record)
    ensures WriteAll([r]) == Write(r)
    ensures !r.own.OwnFile? ==> Write(r) == Header(r) + [NEWLINE]
  {
  }

  // ----- several sources -----

  /** One source of a `COPY` or `ADD`: the path it is labelled with, and what is there. */
  datatype Source = Source(path: Bytes, node: Node)

  function SourceRecords(ignore: Option<Ignore>, sources: seq<Source>): seq<Record> {
    if sources == [] then []
    else Records(ignore, sources[0].path, Normal(sources[0].node)) + SourceRecords(ignore, sources[1..])
  }

  function SourcesStream(ignore: Option<Ignore>, sources: seq<Source>): Bytes {
    WriteAll(SourceRecords(ignore, sources))
  }

  /** `content_digest`, up to the final hash: each source in the given order. */
  method HashSources(sources: seq<Source>, ignore: Option<Ignore>, hasher: Hasher)
    modifies hasher
    ensures hasher.data == old(hasher.data) + SourcesStream(ignore, sources)
  {
    ghost var goal := hasher.data + SourcesStream(ignore, sources);
    var i := 0;
    assert sources[0..] == sources;
    while i < |sources|
      invariant i <= |sources|
      invariant goal == hasher.data + SourcesStream(ignore, sources[i..])
    {
      NextSource(ignore, sources, i, hasher.data);
      HashPath(sources[i].path, sources[i].node, ignore, hasher);
      i := i + 1;
    }
  }

  lemma {:induction false} NextSource(ignore: Option<Ignore>, sources: seq<Source>, i: nat, before: Bytes)
    requires i < |sources|
    ensures before + SourcesStream(ignore, sources[i..])
         == (before + Stream(ignore, sources[i].path, sources[i].node)) + SourcesStream(ignore, sources[i + 1..])
  {
    var first := Records(ignore, sources[i].path, Normal(sources[i].node));
    assert sources[i..][0] == sources[i] && sources[i..][1..] == sources[i + 1..];
    WriteAllConcat(first, SourceRecords(ignore, sources[i + 1..]));
    ConcatAssoc(before, WriteAll(first), SourcesStream(ignore, sources[i + 1..]));
  }
}
