/** `load_archive`: one pass over an archive's entries, then the interpretation of whichever format it turned out to be. */
module ArchiveLoad {
  import opened Seqs
  import opened ByteStrings
  import opened ImageStore

  datatype Entry = Entry(path: string, isDir: bool, content: Bytes)

  datatype Error =
    | NotAFlatBlob | NotADigestName | DigestMismatch
    | NoManifestFile
    | NoLayoutMarker | BadLayout | UnsupportedLayout
    | BadIndex | NoManifests | SeveralManifests | NotAnImageManifest
    | MissingManifest | BadManifest | MissingConfig | MissingLayer
    | BadDockerManifest | NoImages | SeveralImages
    | BadConfig | DiffIdMismatch
    | BadReference

  datatype Result<+T> = Ok(value: T) | Err(error: Error) {
    predicate IsFailure() { Err? }
    function PropagateFailure<U>(): Result<U>
      requires Err?
    { Err(error) }
    function Extract(): T
      requires Ok?
    { value }
  }

  datatype Loaded = Loaded(references: seq<string>, manifest: Digest)

  // ----- what an entry's path says about it -----

  datatype Kind = NestedBlob | MisnamedBlob | Blob(digest: Digest) | IndexFile | LayoutFile | DockerManifestFile
                | DockerConfig | DockerLayer | Other

  const BLOBS := "blobs/sha256/"

  predicate HasPrefix(s: string, prefix: string) {
    |prefix| <= |s| && s[..|prefix|] == prefix
  }

  predicate HasSuffix(s: string, suffix: string) {
    |suffix| <= |s| && s[|s| - |suffix|..] == suffix
  }

  function Classify(path: string): Kind {
    if HasPrefix(path, BLOBS) then
      var hex := path[|BLOBS|..];
      if hex == "" || '/' in hex then NestedBlob
      else if !IsSha256(hex) then MisnamedBlob
      else Blob(hex)
    else if path == "index.json" then IndexFile
    else if path == "oci-layout" then LayoutFile
    else if path == "manifest.json" then DockerManifestFile
    else if '/' !in path && HasSuffix(path, ".json") then DockerConfig
    else if '/' !in path && HasSuffix(path, ".tar") then DockerLayer
    else Other
  }

  // ----- the pass over the entries -----

  /** A layer re-compressed for the store, with the digest of its uncompressed bytes. */
  datatype StoredLayer = StoredLayer(descriptor: Descriptor, diffId: Digest)

  datatype Scan = Scan(
    store: StoreState,
    index: Option<Bytes>, layout: Option<Bytes>, docker: Option<Bytes>,
    configs: map<string, Digest>, layers: map<string, StoredLayer>)

  function StartScan(s: StoreState): Scan {
    Scan(s, None, None, None, map[], map[])
  }

  function StoreLayer(f: Formats, content: Bytes): StoredLayer {
    var packed := f.gzip(content);
    StoredLayer(Descriptor(MEDIA_TYPE_LAYER_GZIP, f.hash(packed), |packed|, map[]), f.hash(content))
  }

  function ScanEntry(f: Formats, s: Scan, e: Entry): Result<Scan> {
    if e.isDir then Ok(s) else ScanFile(f, s, e, Classify(e.path))
  }

  function ScanFile(f: Formats, s: Scan, e: Entry, kind: Kind): Result<Scan> {
    match kind
    case NestedBlob => Err(NotAFlatBlob)
    case MisnamedBlob => Err(NotADigestName)
    case Blob(expected) =>
      if f.hash(e.content) != expected then Err(DigestMismatch)
      else Ok(s.(store := WithBlob(f, s.store, e.content)))
    case IndexFile => Ok(s.(index := Some(e.content)))
    case LayoutFile => Ok(s.(layout := Some(e.content)))
    case DockerManifestFile => Ok(s.(docker := Some(e.content)))
    case DockerConfig =>
      Ok(s.(store := WithBlob(f, s.store, e.content), configs := s.configs[e.path := f.hash(e.content)]))
    case DockerLayer =>
      Ok(s.(store := WithBlob(f, s.store, f.gzip(e.content)), layers := s.layers[e.path := StoreLayer(f, e.content)]))
    case Other => Ok(s)
  }

  /** The scan up to the first entry that fails, and that failure if there is one. */
  function ScanAll(f: Formats, s: Scan, entries: seq<Entry>): (Scan, Option<Error>)
    decreases |entries|
  {
    if entries == [] then (s, None) else
    match ScanEntry(f, s, entries[0])
    case Err(error) => (s, Some(error))
    case Ok(next) => ScanAll(f, next, entries[1..])
  }

  // ----- finishing an oci-archive -----

  /** The manifest an oci-archive's index names, once everything it needs is known to be in the store. */
  function CheckOci(f: Formats, s: StoreState, index: Bytes, layout: Option<Bytes>): Result<Descriptor> {
    if layout.None? then Err(NoLayoutMarker) else
    match f.layoutVersion(layout.value)
    case None => Err(BadLayout)
    case Some(version) =>
      if version != Some(LAYOUT_VERSION) then Err(UnsupportedLayout) else
      match f.parseIndex(index)
      case None => Err(BadIndex)
      case Some(parsed) =>
        if parsed.manifests == [] then Err(NoManifests)
        else if |parsed.manifests| > 1 then Err(SeveralManifests)
        else if parsed.manifests[0].mediaType != MEDIA_TYPE_MANIFEST then Err(NotAnImageManifest)
        else if parsed.manifests[0].digest !in s.blobs then Err(MissingManifest)
        else
          match f.parseManifest(s.blobs[parsed.manifests[0].digest])
          case None => Err(BadManifest)
          case Some(m) =>
            if m.config.digest !in s.blobs then Err(MissingConfig)
            else if exists l :: l in m.layers && l.digest !in s.blobs then Err(MissingLayer)
            else Ok(parsed.manifests[0])
  }

  /** The reference an index entry carries: the containerd name if there is one, else the OCI one. */
  function AnnotatedReference(annotations: map<string, string>): Option<string> {
    if CONTAINERD_IMAGE_NAME in annotations then Some(annotations[CONTAINERD_IMAGE_NAME])
    else if REF_NAME in annotations then Some(annotations[REF_NAME])
    else None
  }

  function FinishOci(f: Formats, s: StoreState, index: Bytes, layout: Option<Bytes>): (StoreState, Result<Loaded>) {
    match CheckOci(f, s, index, layout)
    case Err(error) => (s, Err(error))
    case Ok(d) =>
      match AnnotatedReference(d.annotations)
      case None => (WithImage(s, UntaggedReference(d.digest), d.digest), Ok(Loaded([], d.digest)))
      case Some(raw) =>
        match f.normalize(raw)
        case None => (s, Err(BadReference))
        case Some(reference) => (WithImage(s, reference, d.digest), Ok(Loaded([reference], d.digest)))
  }

  // ----- finishing a docker-archive -----

  function LookUpLayers(layers: map<string, StoredLayer>, names: seq<string>): Result<seq<StoredLayer>> {
    if names == [] then Ok([])
    else if names[0] !in layers then Err(MissingLayer)
    else
      var others :- LookUpLayers(layers, names[1..]);
      Ok([layers[names[0]]] + others)
  }

  function Descriptors(layers: seq<StoredLayer>): (r: seq<Descriptor>)
    ensures |r| == |layers| && forall i :: 0 <= i < |layers| ==> r[i] == layers[i].descriptor
  {
    if layers == [] then [] else [layers[0].descriptor] + Descriptors(layers[1..])
  }

  function DiffIds(layers: seq<StoredLayer>): (r: seq<Digest>)
    ensures |r| == |layers| && forall i :: 0 <= i < |layers| ==> r[i] == layers[i].diffId
  {
    if layers == [] then [] else [layers[0].diffId] + DiffIds(layers[1..])
  }

  /** The item and the fresh manifest it stands for, once its config and layers are found and the diff IDs agree. */
  function CheckDocker(f: Formats, s: Scan, docker: Bytes): Result<(DockerItem, Manifest)> {
    match f.parseDocker(docker)
    case None => Err(BadDockerManifest)
    case Some(items) =>
      if items == [] then Err(NoImages)
      else if |items| > 1 then Err(SeveralImages)
      else if items[0].config !in s.configs then Err(MissingConfig)
      else
        var digest := s.configs[items[0].config];
        if digest !in s.store.blobs then Err(MissingConfig) else
        var config := s.store.blobs[digest];
        match f.diffIds(config)
        case None => Err(BadConfig)
        case Some(expected) =>
          var layers :- LookUpLayers(s.layers, items[0].layers);
          if expected != DiffIds(layers) then Err(DiffIdMismatch) else
          var configDescriptor := Descriptor(MEDIA_TYPE_CONFIG, digest, |config|, map[]);
          Ok((items[0], Manifest(2, Some(MEDIA_TYPE_MANIFEST), configDescriptor, Descriptors(layers))))
  }

  /**
    * Records the manifest under every tag, in order; a tag that does not parse stops it with the earlier ones
    * recorded.
    */
  function PutTags(f: Formats, s: StoreState, tags: seq<string>, manifest: Digest): (StoreState, Result<seq<string>>)
    decreases |tags|
  {
    if tags == [] then (s, Ok([])) else
    match f.normalize(tags[0])
    case None => (s, Err(BadReference))
    case Some(reference) =>
      var (after, others) := PutTags(f, WithImage(s, reference, manifest), tags[1..], manifest);
      (after, if others.Ok? then Ok([reference] + others.value) else others)
  }

  function FinishDocker(f: Formats, s: Scan, docker: Bytes): (StoreState, Result<Loaded>) {
    match CheckDocker(f, s, docker)
    case Err(error) => (s.store, Err(error))
    case Ok((item, manifest)) =>
      var content := f.manifestJson(manifest);
      var digest := f.hash(content);
      var (after, references) := PutTags(f, WithBlob(f, s.store, content), item.repoTags, digest);
      if references.Err? then (after, Err(references.error)) else
      (if item.repoTags == [] then WithImage(after, UntaggedReference(digest), digest) else after,
       Ok(Loaded(references.value, digest)))
  }

  // ----- the whole load -----

  function Finish(f: Formats, s: Scan): (StoreState, Result<Loaded>) {
    if s.index.Some? then FinishOci(f, s.store, s.index.value, s.layout)
    else if s.docker.Some? then FinishDocker(f, s, s.docker.value)
    else (s.store, Err(NoManifestFile))
  }

  /** The store a load leaves behind, whether it succeeds or stops with an error, and its outcome. */
  function Load(f: Formats, s: StoreState, entries: seq<Entry>): (StoreState, Result<Loaded>) {
    var (scan, failure) := ScanAll(f, StartScan(s), entries);
    if failure.Some? then (scan.store, Err(failure.value)) else Finish(f, scan)
  }

  // ----- the load as it is carried out on a store -----

  method LoadOciIndex(f: Formats, store: Store, index: Bytes, layout: Option<Bytes>) returns (r: Result<Loaded>)
    modifies store
    ensures (store.State(), r) == FinishOci(f, old(store.State()), index, layout)
  {
    if layout.None? { return Err(NoLayoutMarker); }
    var version := f.layoutVersion(layout.value);
    if version.None? { return Err(BadLayout); }
    if version.value != Some(LAYOUT_VERSION) { return Err(UnsupportedLayout); }
    var parsed := f.parseIndex(index);
    if parsed.None? { return Err(BadIndex); }
    var manifests := parsed.value.manifests;
    if manifests == [] { return Err(NoManifests); }
    if |manifests| > 1 { return Err(SeveralManifests); }
    var d := manifests[0];
    if d.mediaType != MEDIA_TYPE_MANIFEST { return Err(NotAnImageManifest); }
    if d.digest !in store.blobs { return Err(MissingManifest); }
    var manifest := f.parseManifest(store.blobs[d.digest]);
    if manifest.None? { return Err(BadManifest); }
    if manifest.value.config.digest !in store.blobs { return Err(MissingConfig); }
    var i := 0;
    while i < |manifest.value.layers|
      invariant i <= |manifest.value.layers|
      invariant forall l :: l in manifest.value.layers[..i] ==> l.digest in store.blobs
    {
      if manifest.value.layers[i].digest !in store.blobs { return Err(MissingLayer); }
      i := i + 1;
    }
    assert manifest.value.layers[..i] == manifest.value.layers;
    var raw := AnnotatedReference(d.annotations);
    if raw.None? {
      store.PutImage(UntaggedReference(d.digest), d.digest);
      return Ok(Loaded([], d.digest));
    }
    var reference := f.normalize(raw.value);
    if reference.None? { return Err(BadReference); }
    store.PutImage(reference.value, d.digest);
    return Ok(Loaded([reference.value], d.digest));
  }

  lemma {:induction false} LookUpSnoc(layers: map<string, StoredLayer>, names: seq<string>, i: nat)
    requires i < |names| && LookUpLayers(layers, names[..i]).Ok?
    ensures names[i] in layers ==>
              LookUpLayers(layers, names[..i + 1])
              == Ok(LookUpLayers(layers, names[..i]).value + [layers[names[i]]])
    ensures names[i] !in layers ==> LookUpLayers(layers, names) == Err(MissingLayer)
    decreases i
  {
    if i == 0 {
      assert names[..i] == [] && names[..1][1..] == [];
      if names[0] in layers {
        assert LookUpLayers(layers, names[..1]) == Ok([layers[names[0]]] + []);
        assert [layers[names[0]]] + [] == [] + [layers[names[0]]];
      }
    } else {
      assert names[..i][1..] == names[1..][..i - 1];
      assert names[..i + 1][1..] == names[1..][..i];
      LookUpSnoc(layers, names[1..], i - 1);
      if names[i] in layers {
        ConcatAssoc([layers[names[0]]], LookUpLayers(layers, names[1..][..i - 1]).value, [layers[names[i]]]);
      }
    }
  }

  /** The layers named by the item, in order; a name the archive never included is an error. */
  method CollectLayers(layers: map<string, StoredLayer>, names: seq<string>) returns (r: Result<seq<StoredLayer>>)
    ensures r == LookUpLayers(layers, names)
  {
    var found: seq<StoredLayer> := [];
    var i := 0;
    while i < |names|
      invariant i <= |names|
      invariant LookUpLayers(layers, names[..i]) == Ok(found)
    {
      LookUpSnoc(layers, names, i);
      if names[i] !in layers { return Err(MissingLayer); }
      found := found + [layers[names[i]]];
      i := i + 1;
    }
    assert names[..i] == names;
    return Ok(found);
  }

  method RecordTags(f: Formats, store: Store, tags: seq<string>, manifest: Digest) returns (r: Result<seq<string>>)
    modifies store
    ensures (store.State(), r) == PutTags(f, old(store.State()), tags, manifest)
  {
    var references: seq<string> := [];
    ghost var goal := PutTags(f, store.State(), tags, manifest);
    var i := 0;
    assert tags[0..] == tags;
    assert goal.1.Ok? ==> references + goal.1.value == goal.1.value;
    while i < |tags|
      invariant i <= |tags|
      invariant
        var rest := PutTags(f, store.State(), tags[i..], manifest);
        && goal.0 == rest.0
        && goal.1 == if rest.1.Ok? then Ok(references + rest.1.value) else rest.1
    {
      assert tags[i..][1..] == tags[i + 1..];
      var reference := f.normalize(tags[i]);
      if reference.None? { return Err(BadReference); }
      store.PutImage(reference.value, manifest);
      ghost var rest := PutTags(f, store.State(), tags[i + 1..], manifest).1;
      if rest.Ok? {
        ConcatAssoc(references, [reference.value], rest.value);
      }
      references := references + [reference.value];
      i := i + 1;
    }
    assert references + [] == references;
    return Ok(references);
  }

  method LoadDockerManifest(f: Formats, store: Store, docker: Bytes, configs: map<string, Digest>,
                            layers: map<string, StoredLayer>, ghost s: Scan)
    returns (r: Result<Loaded>)
    requires s.store == store.State() && s.configs == configs && s.layers == layers
    modifies store
    ensures (store.State(), r) == FinishDocker(f, s, docker)
  {
    var items := f.parseDocker(docker);
    if items.None? { return Err(BadDockerManifest); }
    if items.value == [] { return Err(NoImages); }
    if |items.value| > 1 { return Err(SeveralImages); }
    var item := items.value[0];
    if item.config !in configs { return Err(MissingConfig); }
    var digest := configs[item.config];
    if digest !in store.blobs { return Err(MissingConfig); }
    var config := store.blobs[digest];
    var expected := f.diffIds(config);
    if expected.None? { return Err(BadConfig); }
    var found := CollectLayers(layers, item.layers);
    if found.Err? { return Err(found.error); }
    if expected.value != DiffIds(found.value) { return Err(DiffIdMismatch); }
    var manifest := Manifest(2, Some(MEDIA_TYPE_MANIFEST), Descriptor(MEDIA_TYPE_CONFIG, digest, |config|, map[]),
                             Descriptors(found.value));
    var manifestDigest := store.Ingest(f, f.manifestJson(manifest));
    var references := RecordTags(f, store, item.repoTags, manifestDigest);
    if references.Err? { return Err(references.error); }
    if item.repoTags == [] {
      store.PutImage(UntaggedReference(manifestDigest), manifestDigest);
    }
    return Ok(Loaded(references.value, manifestDigest));
  }

  method LoadArchive(f: Formats, store: Store, entries: seq<Entry>) returns (r: Result<Loaded>)
    modifies store
    ensures (store.State(), r) == Load(f, old(store.State()), entries)
  {
    var index: Option<Bytes>, layout: Option<Bytes>, docker: Option<Bytes> := None, None, None;
    var configs: map<string, Digest>, layers: map<string, StoredLayer> := map[], map[];
    ghost var goal := ScanAll(f, StartScan(store.State()), entries);
    var i := 0;
    assert entries[0..] == entries;
    while i < |entries|
      invariant i <= |entries|
      invariant goal == ScanAll(f, Scan(store.State(), index, layout, docker, configs, layers), entries[i..])
    {
      var e := entries[i];
      assert entries[i..][0] == e && entries[i..][1..] == entries[i + 1..];
      i := i + 1;
      if e.isDir { continue; }
      match Classify(e.path) {
        case NestedBlob => return Err(NotAFlatBlob);
        case MisnamedBlob => return Err(NotADigestName);
        case Blob(expected) =>
          var ok := store.IngestVerified(f, e.content, expected);
          if !ok { return Err(DigestMismatch); }
        case IndexFile => index := Some(e.content);
        case LayoutFile => layout := Some(e.content);
        case DockerManifestFile => docker := Some(e.content);
        case DockerConfig =>
          var digest := store.Ingest(f, e.content);
          configs := configs[e.path := digest];
        case DockerLayer =>
          var packed := f.gzip(e.content);
          var digest := store.Ingest(f, packed);
          var descriptor := Descriptor(MEDIA_TYPE_LAYER_GZIP, digest, |packed|, map[]);
          layers := layers[e.path := StoredLayer(descriptor, f.hash(e.content))];
        case Other =>
      }
    }
    ghost var scan := Scan(store.State(), index, layout, docker, configs, layers);
    if index.Some? {
      r := LoadOciIndex(f, store, index.value, layout);
    } else if docker.Some? {
      r := LoadDockerManifest(f, store, docker.value, configs, layers, scan);
    } else {
      r := Err(NoManifestFile);
    }
  }
}
