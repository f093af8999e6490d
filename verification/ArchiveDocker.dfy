/** Saving a docker-archive, loading it and saving again is a fixed point. */
module ArchiveDocker {
  import opened Seqs
  import opened ByteStrings
  import opened ImageStore
  import opened ArchiveLoad
  import opened ArchiveLaws
  import opened ArchiveSave

  /** No two different layers share a digest, so no two share a file name. */
  ghost predicate NoClash(f: Formats, contents: seq<Bytes>) {
    forall u, v :: u in contents && v in contents && f.hash(u) == f.hash(v) ==> u == v
  }

  function HashAll(f: Formats, contents: seq<Bytes>): (r: seq<Digest>)
    ensures |r| == |contents| && forall i :: 0 <= i < |r| ==> r[i] == f.hash(contents[i])
  {
    if contents == [] then [] else [f.hash(contents[0])] + HashAll(f, contents[1..])
  }

  function StoreLayers(f: Formats, contents: seq<Bytes>): (r: seq<StoredLayer>)
    ensures |r| == |contents| && forall i :: 0 <= i < |r| ==> r[i] == StoreLayer(f, contents[i])
  {
    if contents == [] then [] else [StoreLayer(f, contents[0])] + StoreLayers(f, contents[1..])
  }

  // ----- the entries of a saved archive -----

  ghost predicate DockerEntry(f: Formats, config: Bytes, contents: seq<Bytes>, docker: Bytes, e: Entry) {
    || e == File(ConfigName(f.hash(config)), config)
    || e == File("manifest.json", docker)
    || exists u :: u in contents && e == File(LayerName(f, u), u)
  }

  ghost predicate DockerArchive(f: Formats, config: Bytes, contents: seq<Bytes>, docker: Bytes, entries: set<Entry>) {
    && (forall e :: e in entries ==> DockerEntry(f, config, contents, docker, e))
    && File(ConfigName(f.hash(config)), config) in entries
    && File("manifest.json", docker) in entries
    && forall u :: u in contents ==> File(LayerName(f, u), u) in entries
  }

  lemma {:induction false} DockerEntriesAre(f: Formats, reference: string, config: Bytes, contents: seq<Bytes>)
    ensures
      var entries := DockerEntries(f, reference, f.hash(config), config, contents);
      var docker := f.dockerJson([DockerItemFor(f, reference, f.hash(config), contents)]);
      DockerArchive(f, config, contents, docker, Members(entries))
  {
  }

  lemma {:induction false} DockerEntryKind(f: Formats, config: Bytes, contents: seq<Bytes>, docker: Bytes, e: Entry)
    requires Lawful(f) && DockerEntry(f, config, contents, docker, e)
    ensures EntryOk(f, e) && !e.isDir
    ensures Classify(e.path) in {DockerConfig, DockerManifestFile, DockerLayer}
    ensures Classify(e.path) == DockerConfig ==> e == File(ConfigName(f.hash(config)), config)
    ensures Classify(e.path) == DockerManifestFile ==> e == File("manifest.json", docker)
    ensures Classify(e.path) == DockerLayer ==> e.content in contents && e == File(LayerName(f, e.content), e.content)
  {
    ClassifyFixed();
    ClassifyConfig(f.hash(config));
    ClassifyLayer(f, e.content);
  }

  lemma {:induction false} LayerNameInjective(f: Formats, u: Bytes, v: Bytes)
    requires LayerName(f, u) == LayerName(f, v)
    ensures f.hash(u) == f.hash(v)
  {
    var n := |LayerName(f, u)| - 4;
    assert LayerName(f, u)[..n] == f.hash(u) && LayerName(f, v)[..n] == f.hash(v);
  }

  lemma {:induction false} DockerArchiveOk(f: Formats, config: Bytes, contents: seq<Bytes>, docker: Bytes,
                                           entries: set<Entry>)
    requires Lawful(f) && NoClash(f, contents) && DockerArchive(f, config, contents, docker, entries)
    ensures forall e :: e in entries ==> EntryOk(f, e) && !IsFile(e, IndexFile)
    ensures forall e :: e in entries && IsFile(e, DockerManifestFile) ==> e.content == docker
    ensures ConsistentPaths(entries)
  {
    forall e | e in entries
      ensures EntryOk(f, e) && !IsFile(e, IndexFile)
      ensures IsFile(e, DockerManifestFile) ==> e.content == docker
    {
      DockerEntryKind(f, config, contents, docker, e);
    }
    forall a, b | a in entries && b in entries && a.path == b.path && !a.isDir && !b.isDir
      ensures a.content == b.content
    {
      DockerEntryKind(f, config, contents, docker, a);
      DockerEntryKind(f, config, contents, docker, b);
      if Classify(a.path) == DockerLayer {
        LayerNameInjective(f, a.content, b.content);
      }
    }
  }

  // ----- the pass over them -----

  /** What the pass has noted down for the image, and stored without a collision. */
  ghost predicate ScannedImage(f: Formats, config: Bytes, contents: seq<Bytes>, docker: Bytes, s: Scan) {
    && s.index.None? && s.docker == Some(docker)
    && ConfigName(f.hash(config)) in s.configs && s.configs[ConfigName(f.hash(config))] == f.hash(config)
    && (forall u :: u in contents ==>
          LayerName(f, u) in s.layers && s.layers[LayerName(f, u)] == StoreLayer(f, u))
    && (!s.store.collided ==> Holds(f, s.store.blobs, config)
                              && forall u :: u in contents ==> Holds(f, s.store.blobs, f.gzip(u)))
  }

  predicate Holds(f: Formats, blobs: map<Digest, Bytes>, content: Bytes) {
    f.hash(content) in blobs && blobs[f.hash(content)] == content
  }

  lemma {:induction false} StoredFiles(f: Formats, config: Bytes, contents: seq<Bytes>, docker: Bytes,
                                       entries: set<Entry>)
    requires Lawful(f) && DockerArchive(f, config, contents, docker, entries)
    ensures IsFile(File(ConfigName(f.hash(config)), config), DockerConfig)
    ensures config in Contents(f, entries)
    ensures forall u :: u in contents ==> IsFile(File(LayerName(f, u), u), DockerLayer)
    ensures forall u :: u in contents ==> f.gzip(u) in Contents(f, entries)
  {
    var c := File(ConfigName(f.hash(config)), config);
    ClassifyConfig(f.hash(config));
    assert c in entries && Stored(f, c) == Some(config);
    forall u | u in contents
      ensures IsFile(File(LayerName(f, u), u), DockerLayer) && f.gzip(u) in Contents(f, entries)
    {
      ClassifyLayer(f, u);
      var e := File(LayerName(f, u), u);
      assert e in entries && Stored(f, e) == Some(f.gzip(u));
    }
  }

  lemma {:induction false} BlobsHold(f: Formats, start: StoreState, contents: set<Bytes>, s: StoreState, c: Bytes)
    requires BlobsOf(f, start, contents, s) && !s.collided && c in contents
    ensures Holds(f, s.blobs, c)
  {
  }

  lemma {:induction false} DockerScan(f: Formats, start: StoreState, config: Bytes, contents: seq<Bytes>,
                                      docker: Bytes, entries: seq<Entry>)
    requires Lawful(f) && NoClash(f, contents) && DockerArchive(f, config, contents, docker, Members(entries))
    ensures
      var (scan, failure) := ScanAll(f, StartScan(start), entries);
      failure.None? && ScannedImage(f, config, contents, docker, scan)
  {
    DockerArchiveOk(f, config, contents, docker, Members(entries));
    ScanDescribesAll(f, start, entries);
    ScannedFromFiles(f, start, config, contents, docker, Members(entries), ScanAll(f, StartScan(start), entries).0);
  }

  lemma {:induction false} ScannedFromFiles(f: Formats, start: StoreState, config: Bytes, contents: seq<Bytes>,
                                            docker: Bytes,
                         all: set<Entry>, s: Scan)
    requires Lawful(f) && DockerArchive(f, config, contents, docker, all) && Describes(f, start, all, s)
    requires forall e :: e in all ==> !IsFile(e, IndexFile)
    requires forall e :: e in all && IsFile(e, DockerManifestFile) ==> e.content == docker
    ensures ScannedImage(f, config, contents, docker, s)
  {
    StoredFiles(f, config, contents, docker, all);
    FixedFiles(docker, docker);
    FoundContent(all, DockerManifestFile, File("manifest.json", docker), s.docker);
    forall u | u in contents
      ensures LayerName(f, u) in s.layers && s.layers[LayerName(f, u)] == StoreLayer(f, u)
    {
      assert File(LayerName(f, u), u) in all;
    }
    if !s.store.collided {
      BlobsHold(f, start, Contents(f, all), s.store, config);
      forall u | u in contents
        ensures Holds(f, s.store.blobs, f.gzip(u))
      {
        BlobsHold(f, start, Contents(f, all), s.store, f.gzip(u));
      }
    }
  }

  // ----- the manifest made up for it -----

  lemma {:induction false} LookUpAll(f: Formats, layers: map<string, StoredLayer>, contents: seq<Bytes>)
    requires forall u :: u in contents ==> LayerName(f, u) in layers && layers[LayerName(f, u)] == StoreLayer(f, u)
    ensures LookUpLayers(layers, LayerNames(f, contents)) == Ok(StoreLayers(f, contents))
  {
    if contents == [] {
    } else {
      assert contents[0] in contents;
      LookUpAll(f, layers, contents[1..]);
    }
  }

  function FreshManifest(f: Formats, config: Bytes, contents: seq<Bytes>): Manifest {
    Manifest(2, Some(MEDIA_TYPE_MANIFEST), Descriptor(MEDIA_TYPE_CONFIG, f.hash(config), |config|, map[]),
             Descriptors(StoreLayers(f, contents)))
  }

  lemma {:induction false} DockerChecks(f: Formats, reference: string, config: Bytes, contents: seq<Bytes>, s: Scan)
    requires Lawful(f) && !s.store.collided && f.diffIds(config) == Some(HashAll(f, contents))
    requires
      var docker := f.dockerJson([DockerItemFor(f, reference, f.hash(config), contents)]);
      ScannedImage(f, config, contents, docker, s)
    ensures
      var item := DockerItemFor(f, reference, f.hash(config), contents);
      CheckDocker(f, s, f.dockerJson([item])) == Ok((item, FreshManifest(f, config, contents)))
  {
    LookUpAll(f, s.layers, contents);
    assert DiffIds(StoreLayers(f, contents)) == HashAll(f, contents);
  }

  /** Decompressing what was compressed for the store gives the layers back, in order. */
  lemma {:induction false} LayersBack(f: Formats, blobs: map<Digest, Bytes>, contents: seq<Bytes>)
    requires Lawful(f) && forall u :: u in contents ==> Holds(f, blobs, f.gzip(u))
    ensures AllUncompressed(f, blobs, Descriptors(StoreLayers(f, contents))) == Some(contents)
  {
    if contents == [] {
    } else {
      assert contents[0] in contents;
      LayersBack(f, blobs, contents[1..]);
      assert Descriptors(StoreLayers(f, contents))[1..] == Descriptors(StoreLayers(f, contents[1..]));
      assert [contents[0]] + contents[1..] == contents;
    }
  }

  // ----- the round trip -----

  /** The image a record stands for: its config and uncompressed layers, when all can be read. */
  function ImageOf(f: Formats, blobs: map<Digest, Bytes>, manifest: Digest): Option<(Bytes, seq<Bytes>)> {
    if manifest !in blobs then None else
    var m :- f.parseManifest(blobs[manifest]);
    if m.config.digest !in blobs then None else
    var contents :- AllUncompressed(f, blobs, m.layers);
    Some((blobs[m.config.digest], contents))
  }

  /** Saving depends only on the reference and the image, not on how its layers are compressed or described. */
  lemma {:induction false} SaveIsOfImage(f: Formats, blobs: map<Digest, Bytes>, record: ImageRecord)
    requires forall d :: d in blobs ==> f.hash(blobs[d]) == d
    ensures SaveDocker(f, blobs, record).Some? <==> ImageOf(f, blobs, record.manifest).Some?
    ensures SaveDocker(f, blobs, record).Some? ==>
              var (config, contents) := ImageOf(f, blobs, record.manifest).value;
              SaveDocker(f, blobs, record) == Some(DockerEntries(f, record.reference, f.hash(config), config, contents))
  {
  }

  /** A store that holds the fresh manifest and everything it names yields the same image and the same archive. */
  lemma {:induction false} FreshImage(f: Formats, blobs: map<Digest, Bytes>, config: Bytes, contents: seq<Bytes>,
                                      reference: string)
    requires Lawful(f) && Holds(f, blobs, f.manifestJson(FreshManifest(f, config, contents)))
    requires Holds(f, blobs, config) && forall u :: u in contents ==> Holds(f, blobs, f.gzip(u))
    ensures
      var digest := f.hash(f.manifestJson(FreshManifest(f, config, contents)));
      && ImageOf(f, blobs, digest) == Some((config, contents))
      && SaveDocker(f, blobs, ImageRecord(reference, digest))
         == Some(DockerEntries(f, reference, f.hash(config), config, contents))
  {
    LayersBack(f, blobs, contents);
  }

  /** Ingesting the fresh manifest on top of what the pass has stored. */
  lemma {:induction false} FreshStored(f: Formats, s: StoreState, config: Bytes, contents: seq<Bytes>)
    requires Holds(f, s.blobs, config) && forall u :: u in contents ==> Holds(f, s.blobs, f.gzip(u))
    requires
      var content := f.manifestJson(FreshManifest(f, config, contents));
      !WithBlob(f, s, content).collided
    ensures
      var content := f.manifestJson(FreshManifest(f, config, contents));
      var blobs := WithBlob(f, s, content).blobs;
      && Holds(f, blobs, content) && Holds(f, blobs, config)
      && forall u :: u in contents ==> Holds(f, blobs, f.gzip(u))
  {
  }

  /** The reference a load gives an image: its own normalized one, or none at all. */
  function Given(f: Formats, reference: string): Option<string> {
    if IsUntagged(reference) then Some(reference) else f.normalize(reference)
  }

  lemma {:induction false} TagsOf(f: Formats, s: StoreState, reference: string, manifest: Digest)
    ensures
      var tags := if IsUntagged(reference) then [] else [reference];
      PutTags(f, s, tags, manifest)
      == if IsUntagged(reference) then (s, Ok([]))
         else match f.normalize(reference)
              case None => (s, Err(BadReference))
              case Some(name) => (WithImage(s, name, manifest), Ok([name]))
  {
    if !IsUntagged(reference) && f.normalize(reference).Some? {
      var name := f.normalize(reference).value;
      assert [reference][1..] == [];
      assert PutTags(f, WithImage(s, name, manifest), [], manifest) == (WithImage(s, name, manifest), Ok([]));
      assert [name] + [] == [name];
    }
  }

  /** What a load of a saved docker-archive does, by its scan. */
  lemma {:induction false} DockerFinish(f: Formats, reference: string, config: Bytes, contents: seq<Bytes>, s: Scan)
    requires Lawful(f) && !s.store.collided && f.diffIds(config) == Some(HashAll(f, contents))
    requires
      var docker := f.dockerJson([DockerItemFor(f, reference, f.hash(config), contents)]);
      ScannedImage(f, config, contents, docker, s)
    ensures
      var content := f.manifestJson(FreshManifest(f, config, contents));
      var digest := f.hash(content);
      match Given(f, reference)
      case None => Finish(f, s).1 == Err(BadReference)
      case Some(given) =>
        var name := if IsUntagged(given) then UntaggedReference(digest) else given;
        Finish(f, s) == (WithImage(WithBlob(f, s.store, content), name, digest),
                         Ok(Loaded(if IsUntagged(given) then [] else [given], digest)))
  {
    DockerChecks(f, reference, config, contents, s);
    var content := f.manifestJson(FreshManifest(f, config, contents));
    TagsOf(f, WithBlob(f, s.store, content), reference, f.hash(content));
  }

  /** The store and outcome of a load that recovers the image (`config`, `contents`) under `reference`. */
  ghost predicate Recovered(f: Formats, reference: string, config: Bytes, contents: seq<Bytes>,
                            images: map<string, Digest>, after: StoreState, r: Result<Loaded>) {
    var content := f.manifestJson(FreshManifest(f, config, contents));
    var digest := f.hash(content);
    var name := if IsUntagged(reference) then UntaggedReference(digest) else reference;
    && r == Ok(Loaded(if IsUntagged(reference) then [] else [reference], digest))
    && !after.collided
    && after.images == images[name := digest]
    && Holds(f, after.blobs, content) && Holds(f, after.blobs, config)
    && forall u :: u in contents ==> Holds(f, after.blobs, f.gzip(u))
  }

  lemma {:induction false} FinishRecovers(f: Formats, reference: string, config: Bytes, contents: seq<Bytes>,
                                          scan: Scan)
    requires Lawful(f) && f.diffIds(config) == Some(HashAll(f, contents)) && Given(f, reference).Some?
    requires
      var docker := f.dockerJson([DockerItemFor(f, reference, f.hash(config), contents)]);
      ScannedImage(f, config, contents, docker, scan)
    requires !scan.store.collided && !WithBlob(f, scan.store, f.manifestJson(FreshManifest(f, config, contents))).collided
    ensures Recovered(f, Given(f, reference).value, config, contents, scan.store.images, Finish(f, scan).0,
                      Finish(f, scan).1)
  {
    DockerFinish(f, reference, config, contents, scan);
    FreshStored(f, scan.store, config, contents);
  }

  lemma {:induction false} DockerLoads(f: Formats, reference: string, config: Bytes, contents: seq<Bytes>,
                                       target: StoreState)
    requires Lawful(f) && NoClash(f, contents) && f.diffIds(config) == Some(HashAll(f, contents))
    requires CollisionFree(f, target, Ingested(f, config, contents))
    ensures
      var (after, r) := Load(f, target, DockerEntries(f, reference, f.hash(config), config, contents));
      match Given(f, reference)
      case None => r == Err(BadReference)
      case Some(given) => Recovered(f, given, config, contents, target.images, after, r)
  {
    var entries := DockerEntries(f, reference, f.hash(config), config, contents);
    DockerScanned(f, reference, config, contents, target);
    var scan := ScanAll(f, StartScan(target), entries).0;
    if Given(f, reference).None? {
      DockerFinish(f, reference, config, contents, scan);
    } else {
      ScanImages(f, StartScan(target), entries);
      FinishRecovers(f, reference, config, contents, scan);
    }
  }

  /** The pass never touches the references. */
  lemma {:induction false} ScanImages(f: Formats, s: Scan, entries: seq<Entry>)
    ensures ScanAll(f, s, entries).0.store.images == s.store.images
    decreases |entries|
  {
    if entries == [] || ScanEntry(f, s, entries[0]).Err? {
    } else {
      ScanFields(f, s, entries[0]);
      ScanImages(f, ScanEntry(f, s, entries[0]).value, entries[1..]);
    }
  }

  // ----- contents that do not collide -----

  /** Neither among themselves nor with the store do two different contents share a digest, and none ever has. */
  ghost predicate CollisionFree(f: Formats, start: StoreState, contents: set<Bytes>) {
    && !start.collided
    && (forall u, v :: u in contents && v in contents && f.hash(u) == f.hash(v) ==> u == v)
    && (forall u :: u in contents && f.hash(u) in start.blobs ==> start.blobs[f.hash(u)] == u)
  }

  /**
    * What loading the archive of an image ingests: its config, its layers compressed for the store, a fresh
    * manifest.
    */
  function Ingested(f: Formats, config: Bytes, contents: seq<Bytes>): set<Bytes> {
    {config, f.manifestJson(FreshManifest(f, config, contents))} + set u | u in contents :: f.gzip(u)
  }

  lemma {:induction false} ScanCollisionFree(f: Formats, start: StoreState, contents: set<Bytes>, all: set<Bytes>,
                                             s: StoreState, c: Bytes)
    requires BlobsOf(f, start, contents, s) && CollisionFree(f, start, all) && contents <= all && c in all
    ensures !s.collided && !WithBlob(f, s, c).collided
  {
    forall u | u in contents
      ensures s.blobs[f.hash(u)] == u
    {
      assert f.hash(u) in s.blobs && u in all;
    }
  }

  lemma {:induction false} DockerIngests(f: Formats, config: Bytes, contents: seq<Bytes>, docker: Bytes,
                                         entries: set<Entry>)
    requires Lawful(f) && DockerArchive(f, config, contents, docker, entries)
    ensures Contents(f, entries) <= Ingested(f, config, contents)
  {
    forall c | c in Contents(f, entries)
      ensures c in Ingested(f, config, contents)
    {
      var e :| e in entries && Stored(f, e) == Some(c);
      DockerEntryKind(f, config, contents, docker, e);
    }
  }

  /**
    * If nothing that is ingested collides, the store has not when the pass is over, nor with the fresh manifest
    * in it.
    */
  lemma {:induction false} DockerCollisionFree(f: Formats, config: Bytes, contents: seq<Bytes>, docker: Bytes,
                                               target: StoreState, entries: seq<Entry>)
    requires Lawful(f) && NoClash(f, contents) && DockerArchive(f, config, contents, docker, Members(entries))
    requires CollisionFree(f, target, Ingested(f, config, contents))
    ensures
      var scan := ScanAll(f, StartScan(target), entries).0;
      !scan.store.collided && !WithBlob(f, scan.store, f.manifestJson(FreshManifest(f, config, contents))).collided
  {
    DockerArchiveOk(f, config, contents, docker, Members(entries));
    ScanDescribesAll(f, target, entries);
    DockerIngests(f, config, contents, docker, Members(entries));
    ScanCollisionFree(f, target, Contents(f, Members(entries)), Ingested(f, config, contents),
                      ScanAll(f, StartScan(target), entries).0.store, f.manifestJson(FreshManifest(f, config, contents)));
  }

  /** The pass over a saved docker-archive finds the whole image and meets no collision. */
  lemma {:induction false} DockerScanned(f: Formats, reference: string, config: Bytes, contents: seq<Bytes>,
                                         target: StoreState)
    requires Lawful(f) && NoClash(f, contents) && CollisionFree(f, target, Ingested(f, config, contents))
    ensures
      var docker := f.dockerJson([DockerItemFor(f, reference, f.hash(config), contents)]);
      var (scan, failure) :=
        ScanAll(f, StartScan(target), DockerEntries(f, reference, f.hash(config), config, contents));
      && failure.None? && ScannedImage(f, config, contents, docker, scan) && !scan.store.collided
      && !WithBlob(f, scan.store, f.manifestJson(FreshManifest(f, config, contents))).collided
  {
    var entries := DockerEntries(f, reference, f.hash(config), config, contents);
    var docker := f.dockerJson([DockerItemFor(f, reference, f.hash(config), contents)]);
    DockerEntriesAre(f, reference, config, contents);
    DockerScan(f, target, config, contents, docker, entries);
    DockerCollisionFree(f, config, contents, docker, target, entries);
  }

  // ----- the fixed point -----

  /**
    * The record stands for this image in a sound store, different layers of it have different digests, and nothing of
    * it collides with the store it is going to be loaded into.
    */
  ghost predicate Archivable(f: Formats, s: StoreState, record: ImageRecord, config: Bytes, contents: seq<Bytes>,
                             target: StoreState) {
    && Lawful(f) && Sound(f, s)
    && ImageOf(f, s.blobs, record.manifest) == Some((config, contents))
    && NoClash(f, contents) && CollisionFree(f, target, Ingested(f, config, contents))
  }

  /**
    * Loading a saved docker-archive, into any store, keeps the config and the ordered uncompressed layers, records
    * the image under its own reference (or the sentinel of its new manifest), and saving it again writes the very
    * same entries: repeated layers and differently compressed copies make no difference.
    */
  lemma {:induction false} DockerFixedPoint(f: Formats, s: StoreState, record: ImageRecord, config: Bytes,
                                            contents: seq<Bytes>, target: StoreState)
    requires Archivable(f, s, record, config, contents, target)
    requires IsUntagged(record.reference) || f.normalize(record.reference) == Some(record.reference)
    requires f.diffIds(config) == Some(HashAll(f, contents))
    ensures SaveDocker(f, s.blobs, record).Some?
    ensures
      var entries := SaveDocker(f, s.blobs, record).value;
      var (after, r) := Load(f, target, entries);
      && r.Ok? && !after.collided
      && var digest := r.value.manifest;
         var name := if IsUntagged(record.reference) then UntaggedReference(digest) else record.reference;
         && after.images == target.images[name := digest]
         && ImageOf(f, after.blobs, digest) == Some((config, contents))
         && SaveDocker(f, after.blobs, ImageRecord(name, digest)) == Some(entries)
  {
    SaveIsOfImage(f, s.blobs, record);
    DockerLoads(f, record.reference, config, contents, target);
    var digest := f.hash(f.manifestJson(FreshManifest(f, config, contents)));
    var after := Load(f, target, SaveDocker(f, s.blobs, record).value).0;
    if IsUntagged(record.reference) {
      UntaggedIsUntagged(digest);
      FreshImage(f, after.blobs, config, contents, UntaggedReference(digest));
    } else {
      FreshImage(f, after.blobs, config, contents, record.reference);
    }
  }

  /** What saving the loaded image again would write, if the load succeeds. */
  function SavedAgain(f: Formats, target: StoreState, entries: seq<Entry>): Option<seq<Entry>> {
    var (after, r) := Load(f, target, entries);
    if r.Err? then None else
    var digest := r.value.manifest;
    var name := if r.value.references == [] then UntaggedReference(digest) else r.value.references[0];
    SaveDocker(f, after.blobs, ImageRecord(name, digest))
  }

  lemma {:induction false} RecoveredSaves(f: Formats, given: string, config: Bytes, contents: seq<Bytes>,
                                          target: StoreState, entries: seq<Entry>)
    requires Lawful(f)
    requires
      var (after, r) := Load(f, target, entries);
      Recovered(f, given, config, contents, target.images, after, r)
    ensures SavedAgain(f, target, entries) == Some(DockerEntries(f, given, f.hash(config), config, contents))
  {
    var digest := f.hash(f.manifestJson(FreshManifest(f, config, contents)));
    var blobs := Load(f, target, entries).0.blobs;
    if IsUntagged(given) {
      UntaggedIsUntagged(digest);
      FreshImage(f, blobs, config, contents, UntaggedReference(digest));
    } else {
      FreshImage(f, blobs, config, contents, given);
    }
  }

  /** The entries of an archive tell its reference. */
  lemma {:induction false} EntriesTellReference(f: Formats, a: string, b: string, config: Bytes, contents: seq<Bytes>)
    requires Lawful(f) && !IsUntagged(a) && !IsUntagged(b) && a != b
    ensures DockerEntries(f, a, f.hash(config), config, contents) != DockerEntries(f, b, f.hash(config), config, contents)
  {
    var left, right := [DockerItemFor(f, a, f.hash(config), contents)], [DockerItemFor(f, b, f.hash(config), contents)];
    assert left[0].repoTags[0] != right[0].repoTags[0];
    assert f.parseDocker(f.dockerJson(left)) == Some(left) && f.parseDocker(f.dockerJson(right)) == Some(right);
    var n := 1 + |contents|;
    assert DockerEntries(f, a, f.hash(config), config, contents)[n].content == f.dockerJson(left);
    assert DockerEntries(f, b, f.hash(config), config, contents)[n].content == f.dockerJson(right);
  }

  /**
    * Saving, loading and saving again is a fixed point exactly for an image whose config lists its layers' digests
    * and whose reference is normalized or the untagged sentinel.
    */
  lemma {:induction false} DockerFixedPointExactly(f: Formats, s: StoreState, record: ImageRecord, config: Bytes,
                                                   contents: seq<Bytes>, target: StoreState)
    requires Archivable(f, s, record, config, contents, target)
    ensures SaveDocker(f, s.blobs, record).Some?
    ensures
      var entries := SaveDocker(f, s.blobs, record).value;
      SavedAgain(f, target, entries) == Some(entries)
      <==> f.diffIds(config) == Some(HashAll(f, contents)) && Given(f, record.reference) == Some(record.reference)
  {
    SaveIsOfImage(f, s.blobs, record);
    if f.diffIds(config) != Some(HashAll(f, contents)) {
      DockerMismatchRefused(f, s, record, config, contents, target);
    } else {
      DockerLoads(f, record.reference, config, contents, target);
      if Given(f, record.reference).Some? {
        var given, entries := Given(f, record.reference).value, SaveDocker(f, s.blobs, record).value;
        RecoveredSaves(f, given, config, contents, target, entries);
        if given != record.reference {
          EntriesTellReference(f, given, record.reference, config, contents);
        }
      }
    }
  }

  /** An image whose config does not list its layers' digests can be saved, but no load accepts the archive. */
  lemma {:induction false} DockerMismatchRefused(f: Formats, s: StoreState, record: ImageRecord, config: Bytes,
                                                 contents: seq<Bytes>, target: StoreState)
    requires Archivable(f, s, record, config, contents, target)
    requires f.diffIds(config) != Some(HashAll(f, contents))
    ensures SaveDocker(f, s.blobs, record).Some?
    ensures Load(f, target, SaveDocker(f, s.blobs, record).value).1.Err?
  {
    SaveIsOfImage(f, s.blobs, record);
    DockerScanned(f, record.reference, config, contents, target);
    MismatchFails(f, record.reference, config, contents,
                  ScanAll(f, StartScan(target), SaveDocker(f, s.blobs, record).value).0);
  }

  lemma {:induction false} MismatchFails(f: Formats, reference: string, config: Bytes, contents: seq<Bytes>, s: Scan)
    requires Lawful(f) && !s.store.collided && f.diffIds(config) != Some(HashAll(f, contents))
    requires
      var docker := f.dockerJson([DockerItemFor(f, reference, f.hash(config), contents)]);
      ScannedImage(f, config, contents, docker, s)
    ensures Finish(f, s).1.Err?
  {
    LookUpAll(f, s.layers, contents);
    assert DiffIds(StoreLayers(f, contents)) == HashAll(f, contents);
  }
}
