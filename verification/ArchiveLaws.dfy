/** What every load keeps, and why the order of an archive's entries does not matter. */
module ArchiveLaws {
  import opened Seqs
  import opened ByteStrings
  import opened ImageStore
  import opened ArchiveLoad

  // ----- the store stays sound, on success and on every error -----

  /** Every blob hashes to its name. */
  ghost predicate Addressed(f: Formats, s: StoreState) {
    forall d :: d in s.blobs ==> f.hash(s.blobs[d]) == d
  }

  /** What the pass keeps: a sound, growing store that holds every config and layer it has noted down. */
  ghost predicate ScanInv(f: Formats, start: StoreState, s: Scan) {
    && Sound(f, s.store) && Grows(start, s.store)
    && (forall p :: p in s.configs ==> s.configs[p] in s.store.blobs)
    && (forall p :: p in s.layers ==> s.layers[p].descriptor.digest in s.store.blobs)
  }

  lemma {:induction false} ScanFileKeeps(f: Formats, start: StoreState, s: Scan, e: Entry, kind: Kind)
    requires ScanInv(f, start, s) && ScanFile(f, s, e, kind).Ok?
    ensures ScanInv(f, start, ScanFile(f, s, e, kind).value)
  {
    IngestSound(f, s.store, e.content);
    IngestSound(f, s.store, f.gzip(e.content));
  }

  lemma {:induction false} ScanEntryKeeps(f: Formats, start: StoreState, s: Scan, e: Entry)
    requires ScanInv(f, start, s) && ScanEntry(f, s, e).Ok?
    ensures ScanInv(f, start, ScanEntry(f, s, e).value)
  {
    if !e.isDir {
      ScanFileKeeps(f, start, s, e, Classify(e.path));
    }
  }

  lemma {:induction false} ScanAllKeeps(f: Formats, start: StoreState, s: Scan, entries: seq<Entry>)
    requires ScanInv(f, start, s)
    ensures ScanInv(f, start, ScanAll(f, s, entries).0)
    decreases |entries|
  {
    if entries == [] || ScanEntry(f, s, entries[0]).Err? {
    } else {
      ScanEntryKeeps(f, start, s, entries[0]);
      ScanAllKeeps(f, start, ScanEntry(f, s, entries[0]).value, entries[1..]);
    }
  }

  lemma {:induction false} FinishOciKeeps(f: Formats, s: StoreState, index: Bytes, layout: Option<Bytes>)
    requires Sound(f, s)
    ensures Sound(f, FinishOci(f, s, index, layout).0) && Grows(s, FinishOci(f, s, index, layout).0)
  {
    var checked := CheckOci(f, s, index, layout);
    if checked.Ok? {
      assert Complete(f, s.blobs, checked.value.digest);
    }
  }

  lemma {:induction false} LookUpPresent(layers: map<string, StoredLayer>, names: seq<string>)
    requires LookUpLayers(layers, names).Ok?
    ensures forall l :: l in LookUpLayers(layers, names).value ==> exists p :: p in layers && layers[p] == l
  {
    if names == [] {
    } else {
      LookUpPresent(layers, names[1..]);
    }
  }

  lemma {:induction false} PutTagsKeeps(f: Formats, s: StoreState, tags: seq<string>, manifest: Digest)
    requires Sound(f, s) && Complete(f, s.blobs, manifest)
    ensures Sound(f, PutTags(f, s, tags, manifest).0) && Grows(s, PutTags(f, s, tags, manifest).0)
    decreases |tags|
  {
    if tags == [] || f.normalize(tags[0]).None? {
    } else {
      PutImageSound(f, s, f.normalize(tags[0]).value, manifest);
      PutTagsKeeps(f, WithImage(s, f.normalize(tags[0]).value, manifest), tags[1..], manifest);
    }
  }

  /** The manifest a docker-archive load makes up names only blobs the pass has stored. */
  lemma {:induction false} FreshManifestComplete(f: Formats, start: StoreState, s: Scan, docker: Bytes)
    requires Lawful(f) && ScanInv(f, start, s) && CheckDocker(f, s, docker).Ok?
    ensures
      var content := f.manifestJson(CheckDocker(f, s, docker).value.1);
      var after := WithBlob(f, s.store, content);
      && Sound(f, after) && Grows(s.store, after)
      && (!after.collided ==> Complete(f, after.blobs, f.hash(content)))
  {
    var (item, manifest) := CheckDocker(f, s, docker).value;
    var content := f.manifestJson(manifest);
    var after := WithBlob(f, s.store, content);
    IngestSound(f, s.store, content);
    assert manifest.layers == Descriptors(LookUpLayers(s.layers, item.layers).value);
    LayersPresent(f, start, s, item.layers);
    assert manifest.config.digest in after.blobs;
    assert f.parseManifest(content) == Some(manifest);
  }

  lemma {:induction false} LayersPresent(f: Formats, start: StoreState, s: Scan, names: seq<string>)
    requires ScanInv(f, start, s) && LookUpLayers(s.layers, names).Ok?
    ensures forall l :: l in Descriptors(LookUpLayers(s.layers, names).value) ==> l.digest in s.store.blobs
  {
    LookUpPresent(s.layers, names);
    var layers := LookUpLayers(s.layers, names).value;
    forall l | l in Descriptors(layers)
      ensures l.digest in s.store.blobs
    {
      var i :| 0 <= i < |layers| && l == layers[i].descriptor;
      assert layers[i] in layers;
    }
  }

  lemma {:induction false} GrowsTransitive(a: StoreState, b: StoreState, c: StoreState)
    requires Grows(a, b) && Grows(b, c)
    ensures Grows(a, c)
  {
  }

  lemma {:induction false} PutTagsBlobs(f: Formats, s: StoreState, tags: seq<string>, manifest: Digest)
    ensures
      var after := PutTags(f, s, tags, manifest).0;
      after.blobs == s.blobs && after.collided == s.collided
    decreases |tags|
  {
    if tags == [] || f.normalize(tags[0]).None? {
    } else {
      PutTagsBlobs(f, WithImage(s, f.normalize(tags[0]).value, manifest), tags[1..], manifest);
    }
  }

  lemma {:induction false} FinishDockerKeeps(f: Formats, start: StoreState, s: Scan, docker: Bytes)
    requires Lawful(f) && ScanInv(f, start, s)
    ensures
      var after := FinishDocker(f, s, docker).0;
      Grows(s.store, after) && Addressed(f, after) && (!after.collided ==> Sound(f, after))
  {
    FinishDockerGrows(f, start, s, docker);
    FinishDockerSound(f, start, s, docker);
  }

  lemma {:induction false} FinishDockerGrows(f: Formats, start: StoreState, s: Scan, docker: Bytes)
    requires Lawful(f) && ScanInv(f, start, s)
    ensures Grows(s.store, FinishDocker(f, s, docker).0) && Addressed(f, FinishDocker(f, s, docker).0)
  {
    var checked := CheckDocker(f, s, docker);
    if checked.Ok? {
      var content := f.manifestJson(checked.value.1);
      IngestSound(f, s.store, content);
      PutTagsBlobs(f, WithBlob(f, s.store, content), checked.value.0.repoTags, f.hash(content));
    }
  }

  lemma {:induction false} FinishDockerSound(f: Formats, start: StoreState, s: Scan, docker: Bytes)
    requires Lawful(f) && ScanInv(f, start, s)
    ensures !FinishDocker(f, s, docker).0.collided ==> Sound(f, FinishDocker(f, s, docker).0)
  {
    var checked := CheckDocker(f, s, docker);
    if checked.Ok? {
      FreshManifestComplete(f, start, s, docker);
      var content := f.manifestJson(checked.value.1);
      var stored := WithBlob(f, s.store, content);
      PutTagsBlobs(f, stored, checked.value.0.repoTags, f.hash(content));
      if !stored.collided {
        PutTagsKeeps(f, stored, checked.value.0.repoTags, f.hash(content));
      }
    }
  }

  /**
    * Whatever the archive and wherever the load stops: blobs only grow and keep hashing to their names, and unless
    * two contents with the same digest have met, every reference still points to a complete image.
    */
  lemma {:induction false} LoadKeeps(f: Formats, s: StoreState, entries: seq<Entry>)
    requires Lawful(f) && Sound(f, s)
    ensures
      var after := Load(f, s, entries).0;
      Grows(s, after) && Addressed(f, after) && (!after.collided ==> Sound(f, after))
  {
    ScanAllKeeps(f, s, StartScan(s), entries);
    var (scan, failure) := ScanAll(f, StartScan(s), entries);
    if failure.None? {
      if scan.index.Some? {
        FinishOciKeeps(f, scan.store, scan.index.value, scan.layout);
        GrowsTransitive(s, scan.store, Load(f, s, entries).0);
      } else if scan.docker.Some? {
        FinishDockerKeeps(f, s, scan, scan.docker.value);
        GrowsTransitive(s, scan.store, Load(f, s, entries).0);
      }
    }
  }

  /** The store after loading several archives one after the other, failures included. */
  function LoadAll(f: Formats, s: StoreState, archives: seq<seq<Entry>>): StoreState
    decreases |archives|
  {
    if archives == [] then s else LoadAll(f, Load(f, s, archives[0]).0, archives[1..])
  }

  lemma {:induction false} LoadAllCollided(f: Formats, s: StoreState, archives: seq<seq<Entry>>)
    ensures s.collided ==> LoadAll(f, s, archives).collided
    decreases |archives|
  {
    if archives == [] {
    } else {
      LoadCollided(f, s, archives[0]);
      LoadAllCollided(f, Load(f, s, archives[0]).0, archives[1..]);
    }
  }

  lemma {:induction false} ScanCollided(f: Formats, s: Scan, entries: seq<Entry>)
    ensures s.store.collided ==> ScanAll(f, s, entries).0.store.collided
    decreases |entries|
  {
    if entries == [] || ScanEntry(f, s, entries[0]).Err? {
    } else {
      ScanFields(f, s, entries[0]);
      ScanCollided(f, ScanEntry(f, s, entries[0]).value, entries[1..]);
    }
  }

  lemma {:induction false} LoadCollided(f: Formats, s: StoreState, entries: seq<Entry>)
    ensures s.collided ==> Load(f, s, entries).0.collided
  {
    ScanCollided(f, StartScan(s), entries);
    var (scan, failure) := ScanAll(f, StartScan(s), entries);
    if failure.None? {
      FinishCollided(f, scan);
    }
  }

  /** Over every sequence of loads of arbitrary archives. */
  lemma {:induction false} LoadAllKeeps(f: Formats, s: StoreState, archives: seq<seq<Entry>>)
    requires Lawful(f) && Sound(f, s) && !LoadAll(f, s, archives).collided
    ensures Sound(f, LoadAll(f, s, archives)) && Grows(s, LoadAll(f, s, archives))
    decreases |archives|
  {
    if archives == [] {
    } else {
      var next := Load(f, s, archives[0]).0;
      LoadAllCollided(f, next, archives[1..]);
      LoadKeeps(f, s, archives[0]);
      LoadAllKeeps(f, next, archives[1..]);
      GrowsTransitive(s, next, LoadAll(f, s, archives));
    }
  }

  // ----- the order of the entries does not matter -----

  function Members(entries: seq<Entry>): set<Entry> {
    set e | e in entries
  }

  predicate IsFile(e: Entry, kind: Kind) {
    !e.isDir && Classify(e.path) == kind
  }

  predicate EntryOk(f: Formats, e: Entry) {
    e.isDir || match Classify(e.path)
               case NestedBlob => false
               case MisnamedBlob => false
               case Blob(expected) => f.hash(e.content) == expected
               case _ => true
  }

  /** The bytes an entry puts into the store, if any. */
  function Stored(f: Formats, e: Entry): Option<Bytes> {
    if e.isDir then None else
    match Classify(e.path)
    case Blob(_) => Some(e.content)
    case DockerConfig => Some(e.content)
    case DockerLayer => Some(f.gzip(e.content))
    case _ => None
  }

  /** No path occurs with two different contents; in particular, distinct paths will do. */
  ghost predicate ConsistentPaths(entries: set<Entry>) {
    forall a, b :: a in entries && b in entries && a.path == b.path && !a.isDir && !b.isDir ==> a.content == b.content
  }

  /** `found` is the content of the file of this kind, if there is one. */
  ghost predicate Found(entries: set<Entry>, kind: Kind, found: Option<Bytes>) {
    match found
    case None => forall e :: e in entries ==> !IsFile(e, kind)
    case Some(c) => exists e :: e in entries && IsFile(e, kind) && e.content == c
  }

  /** `configs` maps the path of each config file to its digest. */
  ghost predicate ConfigsOf(f: Formats, entries: set<Entry>, configs: map<string, Digest>) {
    && (forall p :: p in configs ==> exists e :: e in entries && IsFile(e, DockerConfig) && e.path == p)
    && (forall e :: e in entries && IsFile(e, DockerConfig) ==>
          e.path in configs && configs[e.path] == f.hash(e.content))
  }

  ghost predicate LayersOf(f: Formats, entries: set<Entry>, layers: map<string, StoredLayer>) {
    && (forall p :: p in layers ==> exists e :: e in entries && IsFile(e, DockerLayer) && e.path == p)
    && (forall e :: e in entries && IsFile(e, DockerLayer) ==>
          e.path in layers && layers[e.path] == StoreLayer(f, e.content))
  }

  /** The contents the entries put into the store. */
  function Contents(f: Formats, entries: set<Entry>): set<Bytes> {
    set e | e in entries && Stored(f, e).Some? :: Stored(f, e).value
  }

  /** The store holds what it started with and a blob for each content; a collision is remembered exactly. */
  ghost predicate BlobsOf(f: Formats, start: StoreState, contents: set<Bytes>, s: StoreState) {
    && s.images == start.images
    && (forall d :: d in start.blobs ==> d in s.blobs && s.blobs[d] == start.blobs[d])
    && (forall c :: c in contents ==> f.hash(c) in s.blobs)
    && (forall d :: d in s.blobs && d !in start.blobs ==> s.blobs[d] in contents && f.hash(s.blobs[d]) == d)
    && (s.collided <==> start.collided || exists c :: c in contents && s.blobs[f.hash(c)] != c)
  }

  /** The pass's result, described by the set of entries alone. */
  ghost predicate Describes(f: Formats, start: StoreState, entries: set<Entry>, s: Scan) {
    && Found(entries, IndexFile, s.index) && Found(entries, LayoutFile, s.layout)
    && Found(entries, DockerManifestFile, s.docker)
    && ConfigsOf(f, entries, s.configs) && LayersOf(f, entries, s.layers)
    && BlobsOf(f, start, Contents(f, entries), s.store)
  }

  /** An entry's effect, field by field. */
  lemma {:induction false} ScanFields(f: Formats, s: Scan, e: Entry)
    requires ScanEntry(f, s, e).Ok?
    ensures
      var t := ScanEntry(f, s, e).value;
      && EntryOk(f, e)
      && t.index == (if IsFile(e, IndexFile) then Some(e.content) else s.index)
      && t.layout == (if IsFile(e, LayoutFile) then Some(e.content) else s.layout)
      && t.docker == (if IsFile(e, DockerManifestFile) then Some(e.content) else s.docker)
      && t.configs == (if IsFile(e, DockerConfig) then s.configs[e.path := f.hash(e.content)] else s.configs)
      && t.layers == (if IsFile(e, DockerLayer) then s.layers[e.path := StoreLayer(f, e.content)] else s.layers)
      && t.store == (if Stored(f, e).Some? then WithBlob(f, s.store, Stored(f, e).value) else s.store)
  {
    if !e.isDir {
      FileFields(f, s, e, Classify(e.path));
    }
  }

  lemma {:induction false} FileFields(f: Formats, s: Scan, e: Entry, kind: Kind)
    requires ScanFile(f, s, e, kind).Ok?
    ensures
      var t := ScanFile(f, s, e, kind).value;
      && !kind.NestedBlob? && !kind.MisnamedBlob? && (kind.Blob? ==> f.hash(e.content) == kind.digest)
      && t.index == (if kind == IndexFile then Some(e.content) else s.index)
      && t.layout == (if kind == LayoutFile then Some(e.content) else s.layout)
      && t.docker == (if kind == DockerManifestFile then Some(e.content) else s.docker)
      && t.configs == (if kind == DockerConfig then s.configs[e.path := f.hash(e.content)] else s.configs)
      && t.layers == (if kind == DockerLayer then s.layers[e.path := StoreLayer(f, e.content)] else s.layers)
      && t.store == (if kind.Blob? || kind == DockerConfig then WithBlob(f, s.store, e.content)
                     else if kind == DockerLayer then WithBlob(f, s.store, f.gzip(e.content)) else s.store)
  {
  }

  lemma {:induction false} FoundStep(entries: set<Entry>, e: Entry, kind: Kind, found: Option<Bytes>)
    requires Found(entries, kind, found)
    ensures Found(entries + {e}, kind, if IsFile(e, kind) then Some(e.content) else found)
  {
  }

  lemma {:induction false} ConfigsStep(f: Formats, entries: set<Entry>, e: Entry, configs: map<string, Digest>)
    requires ConsistentPaths(entries + {e}) && ConfigsOf(f, entries, configs)
    ensures ConfigsOf(f, entries + {e},
                      if IsFile(e, DockerConfig) then configs[e.path := f.hash(e.content)] else configs)
  {
  }

  lemma {:induction false} LayersStep(f: Formats, entries: set<Entry>, e: Entry, layers: map<string, StoredLayer>)
    requires ConsistentPaths(entries + {e}) && LayersOf(f, entries, layers)
    ensures LayersOf(f, entries + {e},
                     if IsFile(e, DockerLayer) then layers[e.path := StoreLayer(f, e.content)] else layers)
  {
    var after := if IsFile(e, DockerLayer) then layers[e.path := StoreLayer(f, e.content)] else layers;
    forall p | p in after
      ensures exists g :: g in entries + {e} && IsFile(g, DockerLayer) && g.path == p
    {
      if p in layers {
        var g :| g in entries && IsFile(g, DockerLayer) && g.path == p;
        assert g in entries + {e};
      } else {
        assert e in entries + {e};
      }
    }
  }

  lemma {:induction false} BlobsStep(f: Formats, start: StoreState, contents: set<Bytes>, s: StoreState, c: Bytes)
    requires BlobsOf(f, start, contents, s)
    ensures BlobsOf(f, start, contents + {c}, WithBlob(f, s, c))
  {
    CollisionStep(f, start, contents, s, c);
  }

  lemma {:induction false} CollisionStep(f: Formats, start: StoreState, contents: set<Bytes>, s: StoreState, c: Bytes)
    requires BlobsOf(f, start, contents, s)
    ensures
      var t := WithBlob(f, s, c);
      && (forall g :: g in contents + {c} ==> f.hash(g) in t.blobs)
      && (t.collided <==> start.collided || exists g :: g in contents + {c} && t.blobs[f.hash(g)] != g)
  {
    var t := WithBlob(f, s, c);
    if t.collided && !start.collided {
      if s.collided {
        var g :| g in contents && s.blobs[f.hash(g)] != g;
        assert g in contents + {c} && t.blobs[f.hash(g)] != g;
      } else {
        assert c in contents + {c} && t.blobs[f.hash(c)] != c;
      }
    }
  }

  lemma {:induction false} DescribesStep(f: Formats, start: StoreState, entries: set<Entry>, s: Scan, e: Entry)
    requires Describes(f, start, entries, s) && ConsistentPaths(entries + {e}) && ScanEntry(f, s, e).Ok?
    ensures Describes(f, start, entries + {e}, ScanEntry(f, s, e).value)
  {
    ScanFields(f, s, e);
    FoundStep(entries, e, IndexFile, s.index);
    FoundStep(entries, e, LayoutFile, s.layout);
    FoundStep(entries, e, DockerManifestFile, s.docker);
    ConfigsStep(f, entries, e, s.configs);
    LayersStep(f, entries, e, s.layers);
    ContentsStep(f, entries, e);
    if Stored(f, e).Some? {
      BlobsStep(f, start, Contents(f, entries), s.store, Stored(f, e).value);
    }
  }

  lemma {:induction false} ContentsStep(f: Formats, entries: set<Entry>, e: Entry)
    ensures Contents(f, entries + {e})
         == Contents(f, entries) + if Stored(f, e).Some? then {Stored(f, e).value} else {}
  {
  }

  lemma {:induction false} ScanDescribes(f: Formats, start: StoreState, done: set<Entry>, s: Scan, entries: seq<Entry>)
    requires Describes(f, start, done, s)
    requires ConsistentPaths(done + Members(entries))
    requires forall e :: e in entries ==> EntryOk(f, e)
    ensures
      var (scan, failure) := ScanAll(f, s, entries);
      failure.None? && Describes(f, start, done + Members(entries), scan)
    decreases |entries|
  {
    if entries == [] {
      assert done + Members(entries) == done;
    } else {
      var first := entries[0];
      assert (done + {first}) + Members(entries[1..]) == done + Members(entries);
      assert first in entries;
      assert ScanEntry(f, s, first).Ok?;
      DescribesStep(f, start, done, s, first);
      ScanDescribes(f, start, done + {first}, ScanEntry(f, s, first).value, entries[1..]);
    }
  }

  lemma {:induction false} ScanDescribesAll(f: Formats, start: StoreState, entries: seq<Entry>)
    requires ConsistentPaths(Members(entries)) && forall e :: e in entries ==> EntryOk(f, e)
    ensures
      var (scan, failure) := ScanAll(f, StartScan(start), entries);
      failure.None? && Describes(f, start, Members(entries), scan)
  {
    assert Describes(f, start, {}, StartScan(start));
    assert {} + Members(entries) == Members(entries);
    ScanDescribes(f, start, {}, StartScan(start), entries);
  }

  lemma {:induction false} ScanFailsExactly(f: Formats, s: Scan, entries: seq<Entry>)
    ensures ScanAll(f, s, entries).1.Some? <==> exists e :: e in entries && !EntryOk(f, e)
    decreases |entries|
  {
    if entries == [] {
    } else {
      var r := ScanEntry(f, s, entries[0]);
      assert entries == [entries[0]] + entries[1..];
      assert r.Ok? <==> EntryOk(f, entries[0]);
      if r.Ok? {
        ScanFailsExactly(f, r.value, entries[1..]);
      }
    }
  }

  lemma {:induction false} BlobsUnique(f: Formats, start: StoreState, contents: set<Bytes>, s: StoreState,
                                       t: StoreState)
    requires BlobsOf(f, start, contents, s) && BlobsOf(f, start, contents, t) && !s.collided
    ensures s == t
  {
  }

  lemma {:induction false} FoundUnique(entries: set<Entry>, kind: Kind, path: string, a: Option<Bytes>,
                                       b: Option<Bytes>)
    requires ConsistentPaths(entries) && Found(entries, kind, a) && Found(entries, kind, b)
    requires forall e :: e in entries && IsFile(e, kind) ==> e.path == path
    ensures a == b
  {
  }

  lemma {:induction false} FixedFilesUnique(entries: set<Entry>, s: Scan, t: Scan)
    requires ConsistentPaths(entries)
    requires Found(entries, IndexFile, s.index) && Found(entries, IndexFile, t.index)
    requires Found(entries, LayoutFile, s.layout) && Found(entries, LayoutFile, t.layout)
    requires Found(entries, DockerManifestFile, s.docker) && Found(entries, DockerManifestFile, t.docker)
    ensures s.index == t.index && s.layout == t.layout && s.docker == t.docker
  {
    FixedNames(entries);
    FoundUnique(entries, IndexFile, "index.json", s.index, t.index);
    FoundUnique(entries, LayoutFile, "oci-layout", s.layout, t.layout);
    FoundUnique(entries, DockerManifestFile, "manifest.json", s.docker, t.docker);
  }

  lemma {:induction false} FixedNames(entries: set<Entry>)
    ensures forall e :: e in entries && IsFile(e, IndexFile) ==> e.path == "index.json"
    ensures forall e :: e in entries && IsFile(e, LayoutFile) ==> e.path == "oci-layout"
    ensures forall e :: e in entries && IsFile(e, DockerManifestFile) ==> e.path == "manifest.json"
  {
  }

  lemma {:induction false} ConfigsUnique(f: Formats, entries: set<Entry>, a: map<string, Digest>, b: map<string,
                                         Digest>)
    requires ConfigsOf(f, entries, a) && ConfigsOf(f, entries, b)
    ensures a == b
  {
  }

  lemma {:induction false} LayersUnique(f: Formats, entries: set<Entry>, a: map<string, StoredLayer>, b: map<string,
                                        StoredLayer>)
    requires LayersOf(f, entries, a) && LayersOf(f, entries, b)
    ensures a == b
  {
  }

  lemma {:induction false} DescribesUnique(f: Formats, start: StoreState, entries: set<Entry>, s: Scan, t: Scan)
    requires Describes(f, start, entries, s) && Describes(f, start, entries, t)
    requires ConsistentPaths(entries) && !s.store.collided
    ensures s == t
  {
    FixedFilesUnique(entries, s, t);
    ConfigsUnique(f, entries, s.configs, t.configs);
    LayersUnique(f, entries, s.layers, t.layers);
    BlobsUnique(f, start, Contents(f, entries), s.store, t.store);
  }

  lemma {:induction false} FinishCollided(f: Formats, s: Scan)
    ensures s.store.collided ==> Finish(f, s).0.collided
  {
    if s.index.None? && s.docker.Some? {
      var checked := CheckDocker(f, s, s.docker.value);
      if checked.Ok? {
        var content := f.manifestJson(checked.value.1);
        PutTagsBlobs(f, WithBlob(f, s.store, content), checked.value.0.repoTags, f.hash(content));
      }
    }
  }

  /** An entry that cannot be read fails the load in every order. */
  lemma {:induction false} BadEntryFails(f: Formats, s: StoreState, entries: seq<Entry>)
    ensures (exists e :: e in entries && !EntryOk(f, e)) ==> Load(f, s, entries).1.Err?
  {
    ScanFailsExactly(f, StartScan(s), entries);
  }

  /**
    * Two archives with the same entries in any order both load or both fail; unless an entry cannot be read, they do
    * so with the same error or the same references and manifest, and leave the same store behind.
    */
  lemma {:induction false} OrderIndependent(f: Formats, s: StoreState, a: seq<Entry>, b: seq<Entry>)
    requires Members(a) == Members(b) && ConsistentPaths(Members(a))
    requires !Load(f, s, a).0.collided
    ensures Load(f, s, a).1.Ok? <==> Load(f, s, b).1.Ok?
    ensures (forall e :: e in a ==> EntryOk(f, e)) ==> Load(f, s, a) == Load(f, s, b)
  {
    assert forall e :: e in a <==> e in Members(a);
    assert forall e :: e in b <==> e in Members(b);
    if exists e :: e in a && !EntryOk(f, e) {
      BadEntryFails(f, s, a);
      BadEntryFails(f, s, b);
    } else {
      assert Describes(f, s, {}, StartScan(s));
      assert {} + Members(a) == Members(a);
      ScanDescribes(f, s, {}, StartScan(s), a);
      ScanDescribes(f, s, {}, StartScan(s), b);
      FinishCollided(f, ScanAll(f, StartScan(s), a).0);
      DescribesUnique(f, s, Members(a), ScanAll(f, StartScan(s), a).0, ScanAll(f, StartScan(s), b).0);
    }
  }
}
