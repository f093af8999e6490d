/** The content-addressed image store and the document formats the archive code reads and writes. */
module ImageStore {
  import opened Seqs
  import opened ByteStrings

  /** A digest's hexadecimal part, which is also the name of the blob's file. */
  type Digest = string

  datatype Descriptor = Descriptor(mediaType: string, digest: Digest, size: nat, annotations: map<string, string>)

  datatype Manifest = Manifest(schemaVersion: nat, mediaType: Option<string>, config: Descriptor, layers: seq<Descriptor>)

  datatype Index = Index(schemaVersion: nat, manifests: seq<Descriptor>)

  /** One item of a docker-archive's `manifest.json`. */
  datatype DockerItem = DockerItem(config: string, repoTags: seq<string>, layers: seq<string>)

  datatype Compression = NoCompression | Gzip | Zstd

  const MEDIA_TYPE_MANIFEST := "application/vnd.oci.image.manifest.v1+json"
  const MEDIA_TYPE_CONFIG := "application/vnd.oci.image.config.v1+json"
  const MEDIA_TYPE_LAYER := "application/vnd.oci.image.layer.v1.tar"
  const MEDIA_TYPE_LAYER_GZIP := "application/vnd.oci.image.layer.v1.tar+gzip"
  const MEDIA_TYPE_LAYER_ZSTD := "application/vnd.oci.image.layer.v1.tar+zstd"
  const MEDIA_TYPE_DOCKER_LAYER_GZIP := "application/vnd.docker.image.rootfs.diff.tar.gzip"
  const REF_NAME := "org.opencontainers.image.ref.name"
  const CONTAINERD_IMAGE_NAME := "io.containerd.image.name"
  const LAYOUT_VERSION := "1.0.0"

  function CompressionFor(mediaType: string): Option<Compression> {
    if mediaType == MEDIA_TYPE_LAYER_GZIP || mediaType == MEDIA_TYPE_DOCKER_LAYER_GZIP then Some(Gzip)
    else if mediaType == MEDIA_TYPE_LAYER then Some(NoCompression)
    else if mediaType == MEDIA_TYPE_LAYER_ZSTD then Some(Zstd)
    else None
  }

  predicate IsHexDigit(c: char) {
    '0' <= c <= '9' || 'a' <= c <= 'f'
  }

  predicate IsSha256(hex: string) {
    |hex| == 64 && forall i :: 0 <= i < |hex| ==> IsHexDigit(hex[i])
  }

  /**
    * What the archive code takes from elsewhere: hashing, (de)compression, the JSON documents and reference
    * normalization. Parsers answer `None` for a malformed document.
    */
  datatype Formats = Formats(
    hash: Bytes -> Digest,
    gzip: Bytes -> Bytes,
    decompress: (Compression, Bytes) -> Option<Bytes>,
    parseManifest: Bytes -> Option<Manifest>, manifestJson: Manifest -> Bytes,
    parseIndex: Bytes -> Option<Index>, indexJson: Index -> Bytes,
    parseDocker: Bytes -> Option<seq<DockerItem>>, dockerJson: seq<DockerItem> -> Bytes,
    diffIds: Bytes -> Option<seq<Digest>>,
    layoutVersion: Bytes -> Option<Option<string>>, layoutJson: Bytes,
    normalize: string -> Option<string>)

  /**
    * Hashes are SHA-256 digests; writing a document and reading it back, or compressing and decompressing, is
    * the identity.
    */
  ghost predicate Lawful(f: Formats) {
    && (forall b :: IsSha256(f.hash(b)))
    && (forall b :: f.decompress(Gzip, f.gzip(b)) == Some(b))
    && (forall m :: f.parseManifest(f.manifestJson(m)) == Some(m))
    && (forall i :: f.parseIndex(f.indexJson(i)) == Some(i))
    && (forall d :: f.parseDocker(f.dockerJson(d)) == Some(d))
    && f.layoutVersion(f.layoutJson) == Some(Some(LAYOUT_VERSION))
    && (forall r :: f.normalize(r).Some? ==> '/' in f.normalize(r).value)
  }

  // ----- references -----

  function UntaggedReference(digest: Digest): string {
    "sha256:" + digest
  }

  predicate IsUntagged(reference: string) {
    '/' !in reference
  }

  lemma {:induction false} UntaggedIsUntagged(digest: Digest)
    requires IsSha256(digest)
    ensures IsUntagged(UntaggedReference(digest))
  {
  }

  // ----- the store -----

  /**
    * Blobs by digest and manifest digests by reference. `collided` remembers whether two different contents with
    * the same digest have met: the store keeps the first and drops the second unseen.
    */
  datatype StoreState = StoreState(blobs: map<Digest, Bytes>, images: map<string, Digest>, collided: bool)

  const EMPTY_STORE := StoreState(map[], map[], false)

  function WithBlob(f: Formats, s: StoreState, content: Bytes): StoreState {
    var d := f.hash(content);
    if d in s.blobs then s.(collided := s.collided || s.blobs[d] != content)
    else s.(blobs := s.blobs[d := content])
  }

  function WithImage(s: StoreState, reference: string, manifest: Digest): StoreState {
    s.(images := s.images[reference := manifest])
  }

  /** The manifest is present and readable, and so are its config and all its layers. */
  predicate Complete(f: Formats, blobs: map<Digest, Bytes>, manifest: Digest) {
    && manifest in blobs
    && f.parseManifest(blobs[manifest]).Some?
    && var m := f.parseManifest(blobs[manifest]).value;
       && m.config.digest in blobs
       && forall l :: l in m.layers ==> l.digest in blobs
  }

  /** Every blob hashes to its name and every reference points to a complete image. */
  ghost predicate Sound(f: Formats, s: StoreState) {
    && (forall d :: d in s.blobs ==> f.hash(s.blobs[d]) == d)
    && (forall r :: r in s.images ==> Complete(f, s.blobs, s.images[r]))
  }

  /** `t` has every blob of `s`, unchanged. */
  ghost predicate Grows(s: StoreState, t: StoreState) {
    && (forall d :: d in s.blobs ==> d in t.blobs && t.blobs[d] == s.blobs[d])
    && (s.collided ==> t.collided)
  }

  lemma {:induction false} IngestSound(f: Formats, s: StoreState, content: Bytes)
    requires Sound(f, s)
    ensures Sound(f, WithBlob(f, s, content)) && Grows(s, WithBlob(f, s, content))
    ensures f.hash(content) in WithBlob(f, s, content).blobs
  {
  }

  lemma {:induction false} PutImageSound(f: Formats, s: StoreState, reference: string, manifest: Digest)
    requires Sound(f, s) && Complete(f, s.blobs, manifest)
    ensures Sound(f, WithImage(s, reference, manifest)) && Grows(s, WithImage(s, reference, manifest))
  {
  }

  /** The store on disk: both maps are updated in place. */
  class Store {
    var blobs: map<Digest, Bytes>
    var images: map<string, Digest>
    ghost var collided: bool

    ghost function State(): StoreState
      reads this
    {
      StoreState(blobs, images, collided)
    }

    constructor ()
      ensures State() == EMPTY_STORE
    {
      blobs, images, collided := map[], map[], false;
    }

    method Ingest(f: Formats, content: Bytes) returns (digest: Digest)
      modifies this
      ensures State() == WithBlob(f, old(State()), content)
      ensures digest == f.hash(content)
      ensures blobs == if digest in old(blobs) then old(blobs) else old(blobs)[digest := content]
      ensures images == old(images)
    {
      digest := f.hash(content);
      if digest in blobs {
        collided := collided || blobs[digest] != content;
      } else {
        blobs := blobs[digest := content];
      }
    }

    /** Refuses content that does not hash to the expected digest, and then stores nothing. */
    method IngestVerified(f: Formats, content: Bytes, expected: Digest) returns (ok: bool)
      modifies this
      ensures ok <==> f.hash(content) == expected
      ensures State() == if ok then WithBlob(f, old(State()), content) else old(State())
      ensures blobs == if ok && expected !in old(blobs) then old(blobs)[expected := content] else old(blobs)
      ensures images == old(images)
    {
      ok := f.hash(content) == expected;
      if ok {
        var digest := Ingest(f, content);
      }
    }

    method PutImage(reference: string, manifest: Digest)
      modifies this
      ensures State() == WithImage(old(State()), reference, manifest)
      ensures images == old(images)[reference := manifest] && blobs == old(blobs)
    {
      images := images[reference := manifest];
    }
  }
}
