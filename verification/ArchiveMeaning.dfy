/** What the archive code reads and writes, entry by entry and check by check, in the format's own words. */
module ArchiveMeaning {
  import opened Seqs
  import opened ByteStrings
  import opened ImageStore
  import opened ArchiveLoad
  import opened ArchiveLaws
  import opened ArchiveSave
  import opened ArchiveDocker

  // ----- media types -----

  /** Which media types a layer can be uncompressed for, and how. */
  lemma {:induction false} MediaTypes(mediaType: string)
    ensures CompressionFor(mediaType) == Some(Gzip)
       <==> mediaType == "application/vnd.oci.image.layer.v1.tar+gzip"
            || mediaType == "application/vnd.docker.image.rootfs.diff.tar.gzip"
    ensures CompressionFor(mediaType) == Some(NoCompression) <==> mediaType == "application/vnd.oci.image.layer.v1.tar"
    ensures CompressionFor(mediaType) == Some(Zstd) <==> mediaType == "application/vnd.oci.image.layer.v1.tar+zstd"
  {
    var gzip, docker := "application/vnd.oci.image.layer.v1.tar+gzip", "application/vnd.docker.image.rootfs.diff.tar.gzip";
    var plain, zstd := "application/vnd.oci.image.layer.v1.tar", "application/vnd.oci.image.layer.v1.tar+zstd";
    assert |plain| == 38 && |gzip| == 43 && |zstd| == 43 && |docker| == 49;
    assert gzip[39] == 'g' && zstd[39] == 'z';
  }

  // ----- what a path says -----

  predicate Under(path: string) {
    |path| >= 13 && path[..13] == "blobs/sha256/"
  }

  predicate Ends(path: string, suffix: string) {
    |path| >= |suffix| && path[|path| - |suffix|..] == suffix
  }

  predicate Sha256(hex: string) {
    |hex| == 64 && forall c :: c in hex ==> c in "0123456789abcdef"
  }

  lemma {:induction false} DigestSpelled(hex: string)
    ensures IsSha256(hex) <==> Sha256(hex)
  {
    assert forall c: char :: c in "0123456789abcdef" <==> IsHexDigit(c) by {
      forall c: char
        ensures c in "0123456789abcdef" <==> IsHexDigit(c)
      {
        HexDigits(c);
      }
    }
    assert forall i :: 0 <= i < |hex| ==> hex[i] in hex;
  }

  lemma {:induction false} HexDigits(c: char)
    ensures c in "0123456789abcdef" <==> IsHexDigit(c)
  {
    var all := "0123456789abcdef";
    if '0' <= c <= '9' {
      assert all[c as int - 48] == c;
    } else if 'a' <= c <= 'f' {
      assert all[c as int - 87] == c;
    }
  }

  /** A blob is a file right under `blobs/sha256` that is named after a digest; others there are errors. */
  lemma {:induction false} BlobPaths(path: string)
    ensures Under(path) <==> Classify(path) in {NestedBlob, MisnamedBlob} || Classify(path).Blob?
    ensures Under(path) ==>
              var hex := path[13..];
              && (Classify(path) == NestedBlob <==> hex == "" || '/' in hex)
              && (Classify(path).Blob? <==> hex != "" && '/' !in hex && Sha256(hex))
              && (Classify(path).Blob? ==> Classify(path).digest == hex)
  {
    assert |BLOBS| == 13;
    if Under(path) {
      DigestSpelled(path[13..]);
    }
  }

  /** The files with a fixed name, and top-level `.json` and `.tar` files. */
  lemma {:induction false} FilePaths(path: string)
    ensures Classify(path) == IndexFile <==> path == "index.json"
    ensures Classify(path) == LayoutFile <==> path == "oci-layout"
    ensures Classify(path) == DockerManifestFile <==> path == "manifest.json"
  {
    assert |BLOBS| == 13 && BLOBS[0] == 'b';
    assert "index.json"[0] == 'i' && "oci-layout"[0] == 'o' && "manifest.json"[0] == 'm';
  }

  lemma {:induction false} ConfigPaths(path: string)
    ensures Classify(path) == DockerConfig
       <==> '/' !in path && Ends(path, ".json") && path != "index.json" && path != "manifest.json"
  {
    NotUnder(path);
    LastLetter(path, ".json");
    assert "oci-layout"[9] == 't' && ".json"[4] == 'n';
  }

  lemma {:induction false} LayerPaths(path: string)
    ensures Classify(path) == DockerLayer <==> '/' !in path && Ends(path, ".tar")
  {
    NotUnder(path);
    LastLetter(path, ".tar");
    LastLetter(path, ".json");
    assert ".tar"[3] == 'r' && ".json"[4] == 'n';
    assert "oci-layout"[9] == 't' && "index.json"[9] == 'n' && "manifest.json"[12] == 'n';
  }

  lemma {:induction false} NotUnder(path: string)
    ensures '/' !in path ==> !HasPrefix(path, BLOBS)
  {
    assert BLOBS[5] == '/';
    assert HasPrefix(path, BLOBS) ==> path[..|BLOBS|][5] == '/' && path[5] in path;
  }

  lemma {:induction false} LastLetter(path: string, suffix: string)
    requires suffix != ""
    ensures Ends(path, suffix) ==> path != "" && path[|path| - 1] == suffix[|suffix| - 1]
    ensures Ends(path, suffix) <==> HasSuffix(path, suffix)
  {
    assert Ends(path, suffix) ==> path[|path| - |suffix|..][|suffix| - 1] == path[|path| - 1];
  }

  /** What stops the pass: a blob in a subdirectory, one not named after a digest, one with another content. */
  lemma {:induction false} EntryErrors(f: Formats, s: Scan, e: Entry)
    ensures
      var hex := if Under(e.path) then e.path[13..] else "";
      if e.isDir || !Under(e.path) then ScanEntry(f, s, e).Ok?
      else if hex == "" || '/' in hex then ScanEntry(f, s, e) == Err(NotAFlatBlob)
      else if !Sha256(hex) then ScanEntry(f, s, e) == Err(NotADigestName)
      else if f.hash(e.content) != hex then ScanEntry(f, s, e) == Err(DigestMismatch)
      else ScanEntry(f, s, e) == Ok(s.(store := WithBlob(f, s.store, e.content)))
  {
    BlobPaths(e.path);
  }

  // ----- what an oci-archive's end checks and records -----

  /** Whether the index names exactly one manifest that is all there. */
  predicate OciReadable(f: Formats, s: StoreState, index: Bytes, layout: Option<Bytes>) {
    && layout.Some? && f.layoutVersion(layout.value) == Some(Some("1.0.0"))
    && f.parseIndex(index).Some? && |f.parseIndex(index).value.manifests| == 1
    && var d := f.parseIndex(index).value.manifests[0];
       && d.mediaType == "application/vnd.oci.image.manifest.v1+json"
       && d.digest in s.blobs && f.parseManifest(s.blobs[d.digest]).Some?
       && var m := f.parseManifest(s.blobs[d.digest]).value;
          m.config.digest in s.blobs && forall l :: l in m.layers ==> l.digest in s.blobs
  }

  lemma {:induction false} OciChecksExactly(f: Formats, s: StoreState, index: Bytes, layout: Option<Bytes>)
    ensures CheckOci(f, s, index, layout).Ok? <==> OciReadable(f, s, index, layout)
    ensures CheckOci(f, s, index, layout).Ok? ==>
              CheckOci(f, s, index, layout).value == f.parseIndex(index).value.manifests[0]
  {
  }

  /** Each error says what is wrong, once everything asked before it is right. */
  lemma {:induction false} OciErrors(f: Formats, s: StoreState, index: Bytes, layout: Option<Bytes>)
    requires CheckOci(f, s, index, layout).Err?
    ensures
      var error := CheckOci(f, s, index, layout).error;
      if layout.None? then error == NoLayoutMarker
      else if f.layoutVersion(layout.value).None? then error == BadLayout
      else if f.layoutVersion(layout.value).value != Some("1.0.0") then error == UnsupportedLayout
      else if f.parseIndex(index).None? then error == BadIndex
      else if |f.parseIndex(index).value.manifests| == 0 then error == NoManifests
      else if |f.parseIndex(index).value.manifests| >= 2 then error == SeveralManifests
      else
        var d := f.parseIndex(index).value.manifests[0];
        if d.mediaType != "application/vnd.oci.image.manifest.v1+json" then error == NotAnImageManifest
        else if d.digest !in s.blobs then error == MissingManifest
        else if f.parseManifest(s.blobs[d.digest]).None? then error == BadManifest
        else if f.parseManifest(s.blobs[d.digest]).value.config.digest !in s.blobs then error == MissingConfig
        else error == MissingLayer
  {
  }

  /** The name an index entry gives its image: containerd's if there is one, else the standard's, else none. */
  predicate Names(annotations: map<string, string>, name: Option<string>) {
    if "io.containerd.image.name" in annotations then name == Some(annotations["io.containerd.image.name"])
    else if "org.opencontainers.image.ref.name" in annotations
    then name == Some(annotations["org.opencontainers.image.ref.name"])
    else name == None
  }

  lemma {:induction false} OciEnd(f: Formats, s: StoreState, index: Bytes, layout: Option<Bytes>, name: Option<string>)
    requires OciReadable(f, s, index, layout) && Names(f.parseIndex(index).value.manifests[0].annotations, name)
    ensures
      var digest := f.parseIndex(index).value.manifests[0].digest;
      var (after, r) := FinishOci(f, s, index, layout);
      && after.blobs == s.blobs
      && match name
         case None => r == Ok(Loaded([], digest)) && after.images == s.images["sha256:" + digest := digest]
         case Some(raw) =>
           match f.normalize(raw)
           case None => r == Err(BadReference) && after.images == s.images
           case Some(reference) =>
             r == Ok(Loaded([reference], digest)) && after.images == s.images[reference := digest]
  {
    OciChecksExactly(f, s, index, layout);
  }

  /**
    * Every archive with a readable `index.json` is an oci-archive: it is recorded under the normalization of the name
    * its index entry gives, or the untagged sentinel, and refused if that name does not parse.
    */
  lemma {:induction false} OciLoads(f: Formats, s: StoreState, entries: seq<Entry>, name: Option<string>)
    requires ScanAll(f, StartScan(s), entries).1.None? && ScanAll(f, StartScan(s), entries).0.index.Some?
    requires
      var scan := ScanAll(f, StartScan(s), entries).0;
      && OciReadable(f, scan.store, scan.index.value, scan.layout)
      && Names(f.parseIndex(scan.index.value).value.manifests[0].annotations, name)
    ensures
      var digest := f.parseIndex(ScanAll(f, StartScan(s), entries).0.index.value).value.manifests[0].digest;
      var (after, r) := Load(f, s, entries);
      match name
      case None => r == Ok(Loaded([], digest)) && after.images == s.images["sha256:" + digest := digest]
      case Some(raw) =>
        match f.normalize(raw)
        case None => r == Err(BadReference) && after.images == s.images
        case Some(reference) => r == Ok(Loaded([reference], digest)) && after.images == s.images[reference := digest]
  {
    var scan := ScanAll(f, StartScan(s), entries).0;
    ScanImages(f, StartScan(s), entries);
    OciEnd(f, scan.store, scan.index.value, scan.layout, name);
  }

  /** An index decides the format whatever else is there; with neither file nothing is loaded. */
  lemma {:induction false} FormatChosen(f: Formats, s: Scan)
    ensures s.index.Some? && !OciReadable(f, s.store, s.index.value, s.layout) ==>
              Finish(f, s).0 == s.store && Finish(f, s).1.Err?
    ensures s.index.Some? ==> Finish(f, s) == FinishOci(f, s.store, s.index.value, s.layout)
    ensures s.index.None? && s.docker.Some? ==> Finish(f, s) == FinishDocker(f, s, s.docker.value)
    ensures s.index.None? && s.docker.None? ==> Finish(f, s) == (s.store, Err(NoManifestFile))
    ensures s.index.None? && s.docker.Some? && !DockerReadable(f, s, s.docker.value) ==>
              Finish(f, s).0 == s.store && Finish(f, s).1.Err?
  {
    if s.index.Some? {
      OciChecksExactly(f, s.store, s.index.value, s.layout);
    } else if s.docker.Some? {
      DockerChecksExactly(f, s, s.docker.value);
    }
  }

  // ----- what a docker-archive's end checks and records -----

  /** Whether the one item's config and layers were there, and the config lists the layers' own digests. */
  predicate DockerReadable(f: Formats, s: Scan, docker: Bytes) {
    && f.parseDocker(docker).Some? && |f.parseDocker(docker).value| == 1
    && var item := f.parseDocker(docker).value[0];
       && item.config in s.configs && s.configs[item.config] in s.store.blobs
       && (forall i :: 0 <= i < |item.layers| ==> item.layers[i] in s.layers)
       && f.diffIds(s.store.blobs[s.configs[item.config]]).Some?
       && var expected := f.diffIds(s.store.blobs[s.configs[item.config]]).value;
          && |expected| == |item.layers|
          && forall i :: 0 <= i < |expected| ==> expected[i] == s.layers[item.layers[i]].diffId
  }

  lemma {:induction false} LookedUp(layers: map<string, StoredLayer>, names: seq<string>)
    ensures LookUpLayers(layers, names).Ok? <==> forall i :: 0 <= i < |names| ==> names[i] in layers
    ensures LookUpLayers(layers, names).Ok? ==>
              && |LookUpLayers(layers, names).value| == |names|
              && forall i :: 0 <= i < |names| ==> LookUpLayers(layers, names).value[i] == layers[names[i]]
    ensures LookUpLayers(layers, names).Err? ==> LookUpLayers(layers, names).error == MissingLayer
  {
    if names == [] {
    } else {
      LookedUp(layers, names[1..]);
      assert forall i :: 0 < i < |names| ==> names[i] == names[1..][i - 1];
      assert forall i :: 0 <= i < |names[1..]| ==> names[1..][i] == names[i + 1];
    }
  }

  /** The item is accepted exactly if all is there, and then stands for a manifest of its config and layers in order. */
  lemma {:induction false} DockerChecksExactly(f: Formats, s: Scan, docker: Bytes)
    ensures CheckDocker(f, s, docker).Ok? <==> DockerReadable(f, s, docker)
    ensures CheckDocker(f, s, docker).Ok? ==>
              CheckDocker(f, s, docker).value.0 == f.parseDocker(docker).value[0]
  {
    if f.parseDocker(docker).Some? && |f.parseDocker(docker).value| == 1 {
      var item := f.parseDocker(docker).value[0];
      LookedUp(s.layers, item.layers);
      if LookUpLayers(s.layers, item.layers).Ok? {
        assert |DiffIds(LookUpLayers(s.layers, item.layers).value)| == |item.layers|;
      }
    }
  }

  lemma {:induction false} DockerErrors(f: Formats, s: Scan, docker: Bytes)
    requires CheckDocker(f, s, docker).Err?
    ensures
      var error := CheckDocker(f, s, docker).error;
      if f.parseDocker(docker).None? then error == BadDockerManifest
      else if |f.parseDocker(docker).value| == 0 then error == NoImages
      else if |f.parseDocker(docker).value| >= 2 then error == SeveralImages
      else
        var item := f.parseDocker(docker).value[0];
        if item.config !in s.configs || s.configs[item.config] !in s.store.blobs then error == MissingConfig
        else if f.diffIds(s.store.blobs[s.configs[item.config]]).None? then error == BadConfig
        else if exists i :: 0 <= i < |item.layers| && item.layers[i] !in s.layers then error == MissingLayer
        else error == DiffIdMismatch
  {
    if f.parseDocker(docker).Some? && |f.parseDocker(docker).value| == 1 {
      LookedUp(s.layers, f.parseDocker(docker).value[0].layers);
    }
  }

  /** The manifest made up for it, field by field. */
  lemma {:induction false} FreshManifestSpelled(f: Formats, s: Scan, docker: Bytes)
    requires CheckDocker(f, s, docker).Ok?
    ensures DockerReadable(f, s, docker)
    ensures
      var item, m := f.parseDocker(docker).value[0], CheckDocker(f, s, docker).value.1;
      var config := s.configs[item.config];
      && m.schemaVersion == 2 && m.mediaType == Some("application/vnd.oci.image.manifest.v1+json")
      && m.config == Descriptor("application/vnd.oci.image.config.v1+json", config, |s.store.blobs[config]|, map[])
      && |m.layers| == |item.layers|
      && forall i :: 0 <= i < |m.layers| ==> m.layers[i] == s.layers[item.layers[i]].descriptor
  {
    DockerChecksExactly(f, s, docker);
    LookedUp(s.layers, f.parseDocker(docker).value[0].layers);
  }

  /** A layer of a docker-archive is stored compressed, and described by what is stored and what it was before. */
  lemma {:induction false} StoredLayerSpelled(f: Formats, content: Bytes)
    ensures
      var packed := f.gzip(content);
      StoreLayer(f, content)
      == StoredLayer(Descriptor("application/vnd.oci.image.layer.v1.tar+gzip", f.hash(packed), |packed|, map[]),
                     f.hash(content))
  {
  }

  /** Every tag up to the first that does not parse is recorded under its normalization; nothing else changes. */
  lemma {:induction false} TagsRecorded(f: Formats, s: StoreState, tags: seq<string>, manifest: Digest, n: nat)
    requires n <= |tags| && (forall i :: 0 <= i < n ==> f.normalize(tags[i]).Some?)
    requires n < |tags| ==> f.normalize(tags[n]).None?
    ensures
      var (after, r) := PutTags(f, s, tags, manifest);
      && after.blobs == s.blobs
      && (n == |tags| <==> r.Ok?) && (r.Err? ==> r.error == BadReference)
      && (r.Ok? ==> |r.value| == n && forall i :: 0 <= i < n ==> r.value[i] == f.normalize(tags[i]).value)
      && forall x :: RecordedAs(f, s.images, after.images, tags[..n], manifest, x)
    decreases |tags|
  {
    if n == 0 {
    } else {
      var name := f.normalize(tags[0]).value;
      assert forall i :: 0 <= i < |tags[1..]| ==> tags[1..][i] == tags[i + 1];
      TagsRecorded(f, WithImage(s, name, manifest), tags[1..], manifest, n - 1);
      assert tags[..n][0] == tags[0] && tags[..n][1..] == tags[1..][..n - 1];
      forall x
        ensures RecordedAs(f, s.images, PutTags(f, s, tags, manifest).0.images, tags[..n], manifest, x)
      {
        FirstRecorded(f, s, tags[..n], manifest, PutTags(f, s, tags, manifest).0.images, x);
      }
    }
  }

  /** The reference names the manifest if it is the normalization of one of the tags, and otherwise what it did. */
  predicate RecordedAs(f: Formats, before: map<string, Digest>, after: map<string, Digest>, tags: seq<string>,
                       manifest: Digest, x: string) {
    if exists i :: 0 <= i < |tags| && f.normalize(tags[i]) == Some(x) then x in after && after[x] == manifest
    else (x in after <==> x in before) && (x in before ==> after[x] == before[x])
  }

  lemma {:induction false} FirstRecorded(f: Formats, s: StoreState, tags: seq<string>, manifest: Digest,
                                         after: map<string, Digest>, x: string)
    requires tags != [] && f.normalize(tags[0]).Some?
    requires RecordedAs(f, s.images[f.normalize(tags[0]).value := manifest], after, tags[1..], manifest, x)
    ensures RecordedAs(f, s.images, after, tags, manifest, x)
  {
    if i :| 0 <= i < |tags| && f.normalize(tags[i]) == Some(x) {
      assert i > 0 ==> tags[1..][i - 1] == tags[i];
    }
    if i :| 0 <= i < |tags[1..]| && f.normalize(tags[1..][i]) == Some(x) {
      assert tags[i + 1] == tags[1..][i];
    }
  }

  /** The fresh manifest is stored, and recorded under the tags or, without any, under the sentinel. */
  lemma {:induction false} DockerEnd(f: Formats, s: Scan, docker: Bytes)
    requires CheckDocker(f, s, docker).Ok?
    ensures
      var (item, m) := CheckDocker(f, s, docker).value;
      var content := f.manifestJson(m);
      var digest := f.hash(content);
      var (tagged, references) := PutTags(f, WithBlob(f, s.store, content), item.repoTags, digest);
      var (after, r) := FinishDocker(f, s, docker);
      && digest in after.blobs && after.blobs == tagged.blobs
      && (item.repoTags != [] ==> after.images == tagged.images)
      && (item.repoTags == [] ==> after.images == s.store.images["sha256:" + digest := digest])
      && r == if references.Ok? then Ok(Loaded(references.value, digest)) else Err(references.error)
  {
    PutTagsBlobs(f, WithBlob(f, s.store, f.manifestJson(CheckDocker(f, s, docker).value.1)),
                 CheckDocker(f, s, docker).value.0.repoTags, f.hash(f.manifestJson(CheckDocker(f, s, docker).value.1)));
  }

  // ----- what is written -----

  /** An oci-archive's first three entries and its last one. */
  lemma {:induction false} OciFrame(f: Formats, blobs: map<Digest, Bytes>, record: ImageRecord)
    requires SaveOci(f, blobs, record).Some?
    ensures record.manifest in blobs
    ensures
      var entries := SaveOci(f, blobs, record).value;
      var annotations :=
        if '/' in record.reference then map["org.opencontainers.image.ref.name" := record.reference] else map[];
      var d := Descriptor("application/vnd.oci.image.manifest.v1+json", record.manifest,
                          |blobs[record.manifest]|, annotations);
      && |entries| >= 4
      && entries[0] == Entry("blobs", true, [])
      && entries[1] == Entry("blobs/sha256", true, [])
      && entries[2] == Entry("oci-layout", false, f.layoutJson)
      && entries[|entries| - 1] == Entry("index.json", false, f.indexJson(Index(2, [d])))
  {
  }

  /** Between them stand the blobs, each under its own name with its own content, in the order of their first use. */
  lemma {:induction false} OciBlobsInOrder(f: Formats, blobs: map<Digest, Bytes>, record: ImageRecord)
    requires SaveOci(f, blobs, record).Some?
    ensures record.manifest in blobs && f.parseManifest(blobs[record.manifest]).Some?
    ensures
      var m := f.parseManifest(blobs[record.manifest]).value;
      var used := [record.manifest, m.config.digest] + seq(|m.layers|, i requires 0 <= i < |m.layers| => m.layers[i].digest);
      var entries := SaveOci(f, blobs, record).value;
      FirstUses(blobs, used, entries[3..|entries| - 1])
  {
    var m := f.parseManifest(blobs[record.manifest]).value;
    var used := [record.manifest, m.config.digest] + LayerDigests(m.layers);
    assert LayerDigests(m.layers) == seq(|m.layers|, i requires 0 <= i < |m.layers| => m.layers[i].digest);
    BlobEntriesFirstUses(blobs, used, {});
    var entries := SaveOci(f, blobs, record).value;
    assert entries[3..|entries| - 1] == BlobEntries(blobs, used, {}).value;
  }

  /** The digests without those that occur before. */
  function Once(digests: seq<Digest>, seen: set<Digest>): seq<Digest> {
    if digests == [] then []
    else (if digests[0] in seen then [] else [digests[0]]) + Once(digests[1..], seen + {digests[0]})
  }

  predicate IsBlob(blobs: map<Digest, Bytes>, digest: Digest, e: Entry) {
    digest in blobs && e == Entry("blobs/sha256/" + digest, false, blobs[digest])
  }

  predicate AreBlobs(blobs: map<Digest, Bytes>, digests: seq<Digest>, entries: seq<Entry>) {
    |entries| == |digests| && forall i :: 0 <= i < |entries| ==> IsBlob(blobs, digests[i], entries[i])
  }

  predicate FirstUses(blobs: map<Digest, Bytes>, used: seq<Digest>, entries: seq<Entry>) {
    AreBlobs(blobs, Once(used, {}), entries)
  }

  lemma {:induction false} BlobEntriesFirstUses(blobs: map<Digest, Bytes>, digests: seq<Digest>, seen: set<Digest>)
    requires BlobEntries(blobs, digests, seen).Some?
    ensures AreBlobs(blobs, Once(digests, seen), BlobEntries(blobs, digests, seen).value)
    decreases |digests|
  {
    if digests == [] {
    } else if digests[0] in seen {
      assert seen + {digests[0]} == seen;
      BlobEntriesFirstUses(blobs, digests[1..], seen);
      assert [] + Once(digests[1..], seen) == Once(digests[1..], seen);
    } else {
      var next := seen + {digests[0]};
      BlobEntriesFirstUses(blobs, digests[1..], next);
      MoreBlobs(blobs, digests[0], File(BlobPath(digests[0]), blobs[digests[0]]), Once(digests[1..], next),
                BlobEntries(blobs, digests[1..], next).value);
    }
  }

  lemma {:induction false} MoreBlobs(blobs: map<Digest, Bytes>, digest: Digest, e: Entry, digests: seq<Digest>,
                                     entries: seq<Entry>)
    requires IsBlob(blobs, digest, e) && AreBlobs(blobs, digests, entries)
    ensures AreBlobs(blobs, [digest] + digests, [e] + entries)
  {
  }

  /** A docker-archive, entry by entry. */
  lemma {:induction false} DockerSpelled(f: Formats, reference: string, config: Bytes, contents: seq<Bytes>)
    ensures
      var entries := DockerEntries(f, reference, f.hash(config), config, contents);
      var n := |contents|;
      var names := seq(n, i requires 0 <= i < n => f.hash(contents[i]) + ".tar");
      var item := DockerItem(f.hash(config) + ".json", if '/' in reference then [reference] else [], names);
      && |entries| == n + 2
      && entries[0] == Entry(f.hash(config) + ".json", false, config)
      && (forall i :: 0 <= i < n ==> entries[1 + i] == Entry(names[i], false, contents[i]))
      && entries[n + 1] == Entry("manifest.json", false, f.dockerJson([item]))
  {
    var n := |contents|;
    var names := seq(n, i requires 0 <= i < n => f.hash(contents[i]) + ".tar");
    assert LayerNames(f, contents) == names;
    var layers := LayerEntries(f, contents);
    assert forall i :: 0 <= i < n ==> layers[i] == Entry(names[i], false, contents[i]);
  }

  /** The layers it holds are the stored ones, uncompressed as their media types say, in order. */
  lemma {:induction false} LayersUncompressed(f: Formats, blobs: map<Digest, Bytes>, layers: seq<Descriptor>, i: nat)
    requires AllUncompressed(f, blobs, layers).Some? && i < |layers|
    ensures CompressionFor(layers[i].mediaType).Some? && layers[i].digest in blobs
    ensures Some(AllUncompressed(f, blobs, layers).value[i])
         == f.decompress(CompressionFor(layers[i].mediaType).value, blobs[layers[i].digest])
  {
    if i == 0 {
    } else {
      LayersUncompressed(f, blobs, layers[1..], i - 1);
    }
  }
}
