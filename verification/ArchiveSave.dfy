/** `save_oci_archive` and `save_docker_archive`, and what loading a saved archive gives back. */
module ArchiveSave {
  import opened Seqs
  import opened ByteStrings
  import opened ImageStore
  import opened ArchiveLoad
  import opened ArchiveLaws

  datatype ImageRecord = ImageRecord(reference: string, manifest: Digest)

  function File(path: string, content: Bytes): Entry {
    Entry(path, false, content)
  }

  function BlobPath(digest: Digest): string {
    BLOBS + digest
  }

  // ----- oci-archive -----

  /** One entry per digest not written before, verbatim from the store; `None` when a blob is missing. */
  function BlobEntries(blobs: map<Digest, Bytes>, digests: seq<Digest>, written: set<Digest>): Option<seq<Entry>>
    decreases |digests|
  {
    if digests == [] then Some([])
    else if digests[0] in written then BlobEntries(blobs, digests[1..], written)
    else if digests[0] !in blobs then None
    else
      var others :- BlobEntries(blobs, digests[1..], written + {digests[0]});
      Some([File(BlobPath(digests[0]), blobs[digests[0]])] + others)
  }

  function LayerDigests(layers: seq<Descriptor>): (r: seq<Digest>)
    ensures |r| == |layers| && forall i :: 0 <= i < |layers| ==> r[i] == layers[i].digest
  {
    if layers == [] then [] else [layers[0].digest] + LayerDigests(layers[1..])
  }

  function IndexFor(record: ImageRecord, size: nat): Index {
    var annotations := if IsUntagged(record.reference) then map[] else map[REF_NAME := record.reference];
    Index(2, [Descriptor(MEDIA_TYPE_MANIFEST, record.manifest, size, annotations)])
  }

  function OciHeader(f: Formats): seq<Entry> {
    [Entry("blobs", true, []), Entry("blobs/sha256", true, []), File("oci-layout", f.layoutJson)]
  }

  function SaveOci(f: Formats, blobs: map<Digest, Bytes>, record: ImageRecord): Option<seq<Entry>> {
    if record.manifest !in blobs then None else
    var content := blobs[record.manifest];
    var m :- f.parseManifest(content);
    var entries :- BlobEntries(blobs, [record.manifest, m.config.digest] + LayerDigests(m.layers), {});
    Some(OciHeader(f) + entries + [File("index.json", f.indexJson(IndexFor(record, |content|)))])
  }

  // ----- docker-archive -----

  /** A stored layer's uncompressed bytes; `None` for an unknown media type, a missing blob or undecodable bytes. */
  function Uncompressed(f: Formats, blobs: map<Digest, Bytes>, layer: Descriptor): Option<Bytes> {
    var compression :- CompressionFor(layer.mediaType);
    if layer.digest !in blobs then None else f.decompress(compression, blobs[layer.digest])
  }

  function AllUncompressed(f: Formats, blobs: map<Digest, Bytes>, layers: seq<Descriptor>): (r: Option<seq<Bytes>>)
    ensures r.Some? ==> |r.value| == |layers|
  {
    if layers == [] then Some([]) else
    var first :- Uncompressed(f, blobs, layers[0]);
    var others :- AllUncompressed(f, blobs, layers[1..]);
    Some([first] + others)
  }

  function LayerName(f: Formats, content: Bytes): string {
    f.hash(content) + ".tar"
  }

  function LayerNames(f: Formats, contents: seq<Bytes>): (r: seq<string>)
    ensures |r| == |contents| && forall i :: 0 <= i < |r| ==> r[i] == LayerName(f, contents[i])
  {
    if contents == [] then [] else [LayerName(f, contents[0])] + LayerNames(f, contents[1..])
  }

  function LayerEntries(f: Formats, contents: seq<Bytes>): (r: seq<Entry>)
    ensures |r| == |contents| && forall i :: 0 <= i < |r| ==> r[i] == File(LayerName(f, contents[i]), contents[i])
  {
    if contents == [] then [] else [File(LayerName(f, contents[0]), contents[0])] + LayerEntries(f, contents[1..])
  }

  function ConfigName(digest: Digest): string {
    digest + ".json"
  }

  function DockerItemFor(f: Formats, reference: string, config: Digest, contents: seq<Bytes>): DockerItem {
    DockerItem(ConfigName(config), if IsUntagged(reference) then [] else [reference], LayerNames(f, contents))
  }

  /** The archive of an image, from its reference, config and uncompressed layers alone. */
  function DockerEntries(f: Formats, reference: string, configDigest: Digest, config: Bytes, contents: seq<Bytes>)
    : seq<Entry>
  {
    [File(ConfigName(configDigest), config)] + LayerEntries(f, contents)
    + [File("manifest.json", f.dockerJson([DockerItemFor(f, reference, configDigest, contents)]))]
  }

  function SaveDocker(f: Formats, blobs: map<Digest, Bytes>, record: ImageRecord): Option<seq<Entry>> {
    if record.manifest !in blobs then None else
    var m :- f.parseManifest(blobs[record.manifest]);
    if m.config.digest !in blobs then None else
    var contents :- AllUncompressed(f, blobs, m.layers);
    Some(DockerEntries(f, record.reference, m.config.digest, blobs[m.config.digest], contents))
  }

  // ----- the two writers as they append entries -----

  method SaveOciArchive(f: Formats, store: Store, record: ImageRecord) returns (r: Option<seq<Entry>>)
    ensures r == SaveOci(f, store.blobs, record)
  {
    if record.manifest !in store.blobs { return None; }
    var content := store.blobs[record.manifest];
    var m := f.parseManifest(content);
    if m.None? { return None; }
    var digests := [record.manifest, m.value.config.digest] + LayerDigests(m.value.layers);
    var entries := OciHeader(f);
    var written: set<Digest> := {};
    ghost var goal := BlobEntries(store.blobs, digests, {});
    assert digests[0..] == digests;
    assert goal.Some? ==> OciHeader(f) + goal.value == entries + goal.value;
    var i := 0;
    while i < |digests|
      invariant i <= |digests|
      invariant
        var rest := BlobEntries(store.blobs, digests[i..], written);
        && (goal.Some? <==> rest.Some?)
        && (goal.Some? ==> OciHeader(f) + goal.value == entries + rest.value)
    {
      var d := digests[i];
      assert digests[i..][1..] == digests[i + 1..];
      if d !in written {
        if d !in store.blobs { return None; }
        var entry := File(BlobPath(d), store.blobs[d]);
        ghost var rest := BlobEntries(store.blobs, digests[i + 1..], written + {d});
        if rest.Some? {
          ConcatAssoc(entries, [entry], rest.value);
        }
        written := written + {d};
        entries := entries + [entry];
      }
      i := i + 1;
    }
    assert entries + [] == entries;
    r := Some(entries + [File("index.json", f.indexJson(IndexFor(record, |content|)))]);
  }

  lemma {:induction false} UncompressedSnoc(f: Formats, blobs: map<Digest, Bytes>, layers: seq<Descriptor>, i: nat)
    requires i < |layers| && AllUncompressed(f, blobs, layers[..i]).Some?
    ensures
      var next := Uncompressed(f, blobs, layers[i]);
      var so := AllUncompressed(f, blobs, layers[..i]).value;
      && (next.Some? ==> AllUncompressed(f, blobs, layers[..i + 1]) == Some(so + [next.value]))
      && (next.None? ==> AllUncompressed(f, blobs, layers).None?)
    decreases i
  {
    var next := Uncompressed(f, blobs, layers[i]);
    if i == 0 {
      assert layers[..i] == [] && layers[..1][1..] == [];
      assert next.Some? ==> [next.value] + [] == [] + [next.value];
    } else {
      assert layers[..i][1..] == layers[1..][..i - 1];
      assert layers[..i + 1][1..] == layers[1..][..i];
      UncompressedSnoc(f, blobs, layers[1..], i - 1);
      if next.Some? {
        ConcatAssoc([Uncompressed(f, blobs, layers[0]).value], AllUncompressed(f, blobs, layers[1..][..i - 1]).value,
                    [next.value]);
      }
    }
  }

  method SaveDockerArchive(f: Formats, store: Store, record: ImageRecord) returns (r: Option<seq<Entry>>)
    ensures r == SaveDocker(f, store.blobs, record)
  {
    if record.manifest !in store.blobs { return None; }
    var m := f.parseManifest(store.blobs[record.manifest]);
    if m.None? { return None; }
    var configDigest, layers := m.value.config.digest, m.value.layers;
    if configDigest !in store.blobs { return None; }
    var config := store.blobs[configDigest];
    var entries := [File(ConfigName(configDigest), config)];
    var names: seq<string> := [];
    ghost var contents: seq<Bytes> := [];
    var i := 0;
    while i < |layers|
      invariant i <= |layers|
      invariant AllUncompressed(f, store.blobs, layers[..i]) == Some(contents)
      invariant names == LayerNames(f, contents)
      invariant entries == [File(ConfigName(configDigest), config)] + LayerEntries(f, contents)
    {
      UncompressedSnoc(f, store.blobs, layers, i);
      var content := Uncompressed(f, store.blobs, layers[i]);
      if content.None? { return None; }
      var name := LayerName(f, content.value);
      entries := entries + [File(name, content.value)];
      names := names + [name];
      contents := contents + [content.value];
      i := i + 1;
    }
    assert layers[..i] == layers;
    var tags := if IsUntagged(record.reference) then [] else [record.reference];
    r := Some(entries + [File("manifest.json", f.dockerJson([DockerItem(ConfigName(configDigest), tags, names)]))]);
  }

  // ----- which entries the names stand for -----

  lemma {:induction false} NoSlash(hex: string)
    requires IsSha256(hex)
    ensures '/' !in hex
  {
  }

  lemma {:induction false} ClassifyBlob(d: Digest)
    requires IsSha256(d)
    ensures Classify(BlobPath(d)) == Blob(d)
  {
  }

  lemma {:induction false} NotABlobPath(d: Digest, suffix: string)
    requires IsSha256(d) && '/' !in suffix
    ensures '/' !in d + suffix && !HasPrefix(d + suffix, BLOBS)
  {
    NoSlash(d);
    assert BLOBS[5] == '/';
    assert (d + suffix)[5] == d[5];
    assert (d + suffix)[..|BLOBS|][5] != BLOBS[5];
  }

  lemma {:induction false} ClassifyConfig(d: Digest)
    requires IsSha256(d)
    ensures Classify(ConfigName(d)) == DockerConfig
  {
    NotABlobPath(d, ".json");
    assert ConfigName(d)[|d|..] == ".json";
  }

  lemma {:induction false} ClassifyLayer(f: Formats, content: Bytes)
    requires Lawful(f)
    ensures Classify(LayerName(f, content)) == DockerLayer
  {
    var d := f.hash(content);
    NotABlobPath(d, ".tar");
    assert LayerName(f, content)[|d|..] == ".tar";
    assert LayerName(f, content)[67] == 'r';
  }

  lemma {:induction false} ClassifyFixed()
    ensures Classify("index.json") == IndexFile
    ensures Classify("oci-layout") == LayoutFile
    ensures Classify("manifest.json") == DockerManifestFile
  {
    assert "manifest.json"[..|BLOBS|][0] != BLOBS[0];
  }

  // ----- oci-archive: save, then load into an empty store -----

  /** The digests of an image: its manifest, its config and its layers. */
  function Reachable(manifest: Digest, m: Manifest): set<Digest> {
    {manifest, m.config.digest} + set l | l in m.layers :: l.digest
  }

  lemma {:induction false} BlobEntriesAre(blobs: map<Digest, Bytes>, digests: seq<Digest>, written: set<Digest>)
    requires BlobEntries(blobs, digests, written).Some?
    ensures
      var entries := BlobEntries(blobs, digests, written).value;
      && (forall d :: d in digests && d !in written ==> d in blobs && File(BlobPath(d), blobs[d]) in entries)
      && (forall e :: e in entries ==>
            exists d :: d in digests && d !in written && d in blobs && e == File(BlobPath(d), blobs[d]))
      && (forall i, j :: 0 <= i < j < |entries| ==> entries[i].path != entries[j].path)
    decreases |digests|
  {
    if digests == [] {
    } else {
      var d := digests[0];
      if d in written {
        BlobEntriesAre(blobs, digests[1..], written);
      } else {
        BlobEntriesAre(blobs, digests[1..], written + {d});
        var others := BlobEntries(blobs, digests[1..], written + {d}).value;
        forall i | 0 <= i < |others|
          ensures others[i].path != BlobPath(d)
        {
          assert others[i] in others;
          var g :| g in digests[1..] && g !in written + {d} && g in blobs && others[i] == File(BlobPath(g), blobs[g]);
          assert BlobPath(g)[|BLOBS|..] == g && BlobPath(d)[|BLOBS|..] == d;
        }
      }
    }
  }

  /** What an entry of a saved oci-archive can be. */
  ghost predicate OciEntry(f: Formats, blobs: map<Digest, Bytes>, reach: set<Digest>, index: Bytes, e: Entry) {
    || e.isDir
    || e == File("oci-layout", f.layoutJson)
    || e == File("index.json", index)
    || exists d :: d in reach && d in blobs && e == File(BlobPath(d), blobs[d])
  }

  ghost predicate OciArchive(f: Formats, blobs: map<Digest, Bytes>, reach: set<Digest>, index: Bytes,
                             entries: set<Entry>) {
    && (forall e :: e in entries ==> OciEntry(f, blobs, reach, index, e))
    && File("oci-layout", f.layoutJson) in entries && File("index.json", index) in entries
    && (forall d :: d in reach ==> d in blobs && File(BlobPath(d), blobs[d]) in entries)
  }

  lemma {:induction false} SaveOciIs(f: Formats, blobs: map<Digest, Bytes>, record: ImageRecord)
    requires SaveOci(f, blobs, record).Some?
    ensures
      var m := f.parseManifest(blobs[record.manifest]).value;
      var index := f.indexJson(IndexFor(record, |blobs[record.manifest]|));
      OciArchive(f, blobs, Reachable(record.manifest, m), index, Members(SaveOci(f, blobs, record).value))
  {
    var m := f.parseManifest(blobs[record.manifest]).value;
    var index := File("index.json", f.indexJson(IndexFor(record, |blobs[record.manifest]|)));
    var digests := [record.manifest, m.config.digest] + LayerDigests(m.layers);
    var middle := BlobEntries(blobs, digests, {}).value;
    var entries := OciHeader(f) + middle + [index];
    BlobEntriesAre(blobs, digests, {});
    DigestsReachable(record.manifest, m);
    assert OciHeader(f)[2] in entries;
    assert entries[|entries| - 1] in entries;
    forall e | e in entries
      ensures OciEntry(f, blobs, Reachable(record.manifest, m), index.content, e)
    {
      assert e in OciHeader(f) || e in middle || e == index;
    }
  }

  lemma {:induction false} DigestsReachable(manifest: Digest, m: Manifest)
    ensures forall d :: d in [manifest, m.config.digest] + LayerDigests(m.layers) <==> d in Reachable(manifest, m)
  {
  }

  lemma {:induction false} OciEntryKind(f: Formats, blobs: map<Digest, Bytes>, reach: set<Digest>, index: Bytes,
                                        e: Entry)
    requires Lawful(f) && (forall d :: d in blobs ==> f.hash(blobs[d]) == d) && OciEntry(f, blobs, reach, index, e)
    ensures EntryOk(f, e)
    ensures e.isDir || Classify(e.path) in {IndexFile, LayoutFile} || Classify(e.path).Blob?
    ensures IsFile(e, IndexFile) ==> e.content == index
    ensures IsFile(e, LayoutFile) ==> e.content == f.layoutJson
    ensures !e.isDir && Classify(e.path).Blob? ==>
              var d := Classify(e.path).digest;
              d in reach && d in blobs && e.content == blobs[d] && Stored(f, e) == Some(blobs[d])
  {
  }

  lemma {:induction false} OciArchiveContents(f: Formats, blobs: map<Digest, Bytes>, reach: set<Digest>, index: Bytes,
                                              entries: set<Entry>)
    requires Lawful(f) && (forall d :: d in blobs ==> f.hash(blobs[d]) == d)
    requires OciArchive(f, blobs, reach, index, entries)
    ensures forall e :: e in entries ==> EntryOk(f, e)
    ensures forall e :: e in entries && IsFile(e, IndexFile) ==> e.content == index
    ensures forall e :: e in entries && IsFile(e, LayoutFile) ==> e.content == f.layoutJson
    ensures ConsistentPaths(entries)
    ensures Contents(f, entries) == set d | d in reach :: blobs[d]
  {
    forall e | e in entries
      ensures EntryOk(f, e)
      ensures IsFile(e, IndexFile) ==> e.content == index
      ensures IsFile(e, LayoutFile) ==> e.content == f.layoutJson
    {
      OciEntryKind(f, blobs, reach, index, e);
    }
    forall a, b | a in entries && b in entries && a.path == b.path && !a.isDir && !b.isDir
      ensures a.content == b.content
    {
      OciEntryKind(f, blobs, reach, index, a);
      OciEntryKind(f, blobs, reach, index, b);
    }
    forall c | c in Contents(f, entries)
      ensures c in set d | d in reach :: blobs[d]
    {
      var e :| e in entries && Stored(f, e) == Some(c);
      OciEntryKind(f, blobs, reach, index, e);
    }
    forall d | d in reach
      ensures blobs[d] in Contents(f, entries)
    {
      var e := File(BlobPath(d), blobs[d]);
      ClassifyBlob(d);
      assert e in entries && Stored(f, e) == Some(blobs[d]);
    }
  }

  function Restrict(blobs: map<Digest, Bytes>, keys: set<Digest>): map<Digest, Bytes> {
    map d | d in keys && d in blobs :: blobs[d]
  }

  lemma {:induction false} FixedFiles(index: Bytes, layout: Bytes)
    ensures IsFile(File("index.json", index), IndexFile)
    ensures IsFile(File("oci-layout", layout), LayoutFile)
    ensures IsFile(File("manifest.json", index), DockerManifestFile)
  {
    ClassifyFixed();
  }

  lemma {:induction false} FoundContent(entries: set<Entry>, kind: Kind, e: Entry, found: Option<Bytes>)
    requires Found(entries, kind, found) && e in entries && IsFile(e, kind)
    requires forall g :: g in entries && IsFile(g, kind) ==> g.content == e.content
    ensures found == Some(e.content)
  {
  }

  /** Scanning a saved oci-archive into an empty store puts exactly the image's blobs there. */
  lemma {:induction false} OciScan(f: Formats, blobs: map<Digest, Bytes>, reach: set<Digest>, index: Bytes,
                                   entries: seq<Entry>)
    requires Lawful(f) && (forall d :: d in blobs ==> f.hash(blobs[d]) == d)
    requires OciArchive(f, blobs, reach, index, Members(entries))
    ensures
      var (scan, failure) := ScanAll(f, StartScan(EMPTY_STORE), entries);
      && failure.None?
      && scan.store == StoreState(Restrict(blobs, reach), map[], false)
      && scan.index == Some(index) && scan.layout == Some(f.layoutJson)
  {
    var all := Members(entries);
    OciArchiveContents(f, blobs, reach, index, all);
    assert Describes(f, EMPTY_STORE, {}, StartScan(EMPTY_STORE));
    assert {} + all == all;
    ScanDescribes(f, EMPTY_STORE, {}, StartScan(EMPTY_STORE), entries);
    var s := ScanAll(f, StartScan(EMPTY_STORE), entries).0;
    FixedFiles(index, f.layoutJson);
    FoundContent(all, IndexFile, File("index.json", index), s.index);
    FoundContent(all, LayoutFile, File("oci-layout", f.layoutJson), s.layout);
    OciBlobs(f, blobs, reach, Contents(f, all), s.store);
  }

  lemma {:induction false} OciBlobs(f: Formats, blobs: map<Digest, Bytes>, reach: set<Digest>, contents: set<Bytes>,
                                    s: StoreState)
    requires (forall d :: d in blobs ==> f.hash(blobs[d]) == d) && (forall d :: d in reach ==> d in blobs)
    requires contents == (set d | d in reach :: blobs[d]) && BlobsOf(f, EMPTY_STORE, contents, s)
    ensures s == StoreState(Restrict(blobs, reach), map[], false)
  {
  }

  /** The reference a load records for a saved record. */
  function LoadedReference(f: Formats, record: ImageRecord): Option<string> {
    if IsUntagged(record.reference) then Some(UntaggedReference(record.manifest)) else f.normalize(record.reference)
  }

  lemma {:induction false} IndexReference(f: Formats, record: ImageRecord, size: nat)
    ensures AnnotatedReference(IndexFor(record, size).manifests[0].annotations)
         == if IsUntagged(record.reference) then None else Some(record.reference)
  {
  }

  lemma {:induction false} OciChecks(f: Formats, blobs: map<Digest, Bytes>, record: ImageRecord, m: Manifest)
    requires Lawful(f) && record.manifest in blobs && f.parseManifest(blobs[record.manifest]) == Some(m)
    requires forall d :: d in Reachable(record.manifest, m) ==> d in blobs
    ensures
      var index := IndexFor(record, |blobs[record.manifest]|);
      var s := StoreState(Restrict(blobs, Reachable(record.manifest, m)), map[], false);
      CheckOci(f, s, f.indexJson(index), Some(f.layoutJson)) == Ok(index.manifests[0])
  {
  }

  /**
    * Saving an image as an oci-archive and loading it into an empty store gives exactly the image's own blobs and
    * exactly one record, which is the one saved exactly when its reference is normalized or the untagged sentinel.
    */
  lemma {:induction false} OciRoundTrip(f: Formats, s: StoreState, record: ImageRecord)
    requires Lawful(f) && Sound(f, s) && SaveOci(f, s.blobs, record).Some? && LoadedReference(f, record).Some?
    ensures
      var entries := SaveOci(f, s.blobs, record).value;
      var m := f.parseManifest(s.blobs[record.manifest]).value;
      var reference := LoadedReference(f, record).value;
      var (after, r) := Load(f, EMPTY_STORE, entries);
      && after.blobs == Restrict(s.blobs, Reachable(record.manifest, m))
      && after.images == map[reference := record.manifest]
      && !after.collided
      && r == Ok(Loaded(if IsUntagged(record.reference) then [] else [reference], record.manifest))
      && (after.images == map[record.reference := record.manifest] <==> LoadedReference(f, record) == Some(record.reference))
  {
    var entries := SaveOci(f, s.blobs, record).value;
    var m := f.parseManifest(s.blobs[record.manifest]).value;
    var reference := LoadedReference(f, record).value;
    var size := |s.blobs[record.manifest]|;
    SaveOciIs(f, s.blobs, record);
    OciScan(f, s.blobs, Reachable(record.manifest, m), f.indexJson(IndexFor(record, size)), entries);
    OciChecks(f, s.blobs, record, m);
    IndexReference(f, record, size);
    OneRecord(reference, record.reference, record.manifest);
  }

  lemma {:induction false} OneRecord(a: string, b: string, manifest: Digest)
    ensures map[a := manifest] == map[b := manifest] <==> a == b
  {
    assert map[a := manifest].Keys == {a} && map[b := manifest].Keys == {b};
  }

  /** Without a readable reference the archive is saved all the same, but loading it into an empty store is refused. */
  lemma {:induction false} UnreadableReferenceRefused(f: Formats, s: StoreState, record: ImageRecord)
    requires Lawful(f) && Sound(f, s) && SaveOci(f, s.blobs, record).Some? && LoadedReference(f, record).None?
    ensures Load(f, EMPTY_STORE, SaveOci(f, s.blobs, record).value).1 == Err(BadReference)
  {
    var m := f.parseManifest(s.blobs[record.manifest]).value;
    var size := |s.blobs[record.manifest]|;
    SaveOciIs(f, s.blobs, record);
    OciScan(f, s.blobs, Reachable(record.manifest, m), f.indexJson(IndexFor(record, size)),
            SaveOci(f, s.blobs, record).value);
    OciChecks(f, s.blobs, record, m);
    IndexReference(f, record, size);
  }

  lemma {:induction false} FixedPaths()
    ensures !HasPrefix("blobs", BLOBS) && !HasPrefix("blobs/sha256", BLOBS) && !HasPrefix("oci-layout", BLOBS)
    ensures !HasPrefix("index.json", BLOBS)
    ensures "oci-layout" != "index.json"
  {
  }

  /** No path occurs twice in a saved oci-archive: each blob is in it once. */
  lemma {:induction false} OciPathsDistinct(f: Formats, blobs: map<Digest, Bytes>, record: ImageRecord, i: nat, j: nat)
    requires SaveOci(f, blobs, record).Some?
    requires i < j < |SaveOci(f, blobs, record).value|
    ensures SaveOci(f, blobs, record).value[i].path != SaveOci(f, blobs, record).value[j].path
  {
    var m := f.parseManifest(blobs[record.manifest]).value;
    BlobEntriesAre(blobs, [record.manifest, m.config.digest] + LayerDigests(m.layers), {});
    FixedPaths();
    OciPathAt(f, blobs, record, i);
    OciPathAt(f, blobs, record, j);
  }

  /** What stands where in a saved oci-archive. */
  lemma {:induction false} OciPathAt(f: Formats, blobs: map<Digest, Bytes>, record: ImageRecord, k: nat)
    requires SaveOci(f, blobs, record).Some? && k < |SaveOci(f, blobs, record).value|
    ensures
      var m := f.parseManifest(blobs[record.manifest]).value;
      var middle := BlobEntries(blobs, [record.manifest, m.config.digest] + LayerDigests(m.layers), {}).value;
      var entries := SaveOci(f, blobs, record).value;
      if k == 0 then entries[k].path == "blobs"
      else if k == 1 then entries[k].path == "blobs/sha256"
      else if k == 2 then entries[k].path == "oci-layout"
      else if k < 3 + |middle| then entries[k] == middle[k - 3] && HasPrefix(entries[k].path, BLOBS)
      else k == |entries| - 1 && entries[k].path == "index.json"
  {
    var m := f.parseManifest(blobs[record.manifest]).value;
    var digests := [record.manifest, m.config.digest] + LayerDigests(m.layers);
    var middle := BlobEntries(blobs, digests, {}).value;
    if 3 <= k < 3 + |middle| {
      BlobEntryPath(blobs, digests, middle[k - 3]);
    }
  }

  lemma {:induction false} BlobEntryPath(blobs: map<Digest, Bytes>, digests: seq<Digest>, e: Entry)
    requires BlobEntries(blobs, digests, {}).Some? && e in BlobEntries(blobs, digests, {}).value
    ensures HasPrefix(e.path, BLOBS)
  {
    BlobEntriesAre(blobs, digests, {});
    var d :| d in digests && d in blobs && e == File(BlobPath(d), blobs[d]);
    assert BlobPath(d)[..|BLOBS|] == BLOBS;
  }
}
