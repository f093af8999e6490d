# Models of the container tools' trickiest logic

The repository is a family of Rust container tools: a CRI server (`ocicri`), an image builder and manager
(`ociman`), a boot-time image mounter (`ociboot-init`) and a development-box tool (`ocibox`). This project models six
of their parts in Dafny and proves what each of them is for. `dafny verify dfyconfig.toml` checks everything.

| files | part |
|---|---|
| `CriLog`, `CriCuts`, `CriLogger` | the CRI log writer: the format with a reader for it, the stream splitter as the nested loops it is, how far its entries depend on the reads, and the logger process with two writers, renames and reopenings as a step system |
| `Launcher` | the launcher, logger and container as a step system over pipe ends and the files `pid`, `exit.json` and `start-error` |
| `ImageStore`, `ArchiveLoad`, `ArchiveSave`, `ArchiveLaws`, `ArchiveDocker`, `ArchiveMeaning` | the content-addressed store, the two archive writers and the auto-detecting single-pass reader, its checks spelled out one by one |
| `BuildCache`, `BuildCacheLimits` | the cache lookup, whole builds with and without it, and exactly when the two agree |
| `DigestRecords`, `ContentDigest`, `DigestLaws`, `DigestLimits`, `DigestArrows`, `DigestMeaning` | the byte stream that is hashed for the sources of a `COPY` or `ADD`, what it determines and what it does not |
| `DockerIgnore`, `IgnoreMeaning`, `DigestIgnore` | which paths a `.dockerignore` ignores, and what that does to the stream |
| `MountTable`, `BootMount`, `BootSuccess`, `BootHost` | the boot-time mount command, with any step failing, what it has mounted when it succeeds, and its teardown |
| `ContainerPath` | the `PATH` of a box |
| `RecordStore`, `RecordOrder` | the directory of CRI records |
| `Seqs`, `ByteStrings`, `Sorting` | sequences, bytes and sorting |

Code that changes things step by step is a method or a class, proved equal to a function of its inputs or of the old
state; the laws are then lemmas about that function. Two processes that run at the same time are a step system whose
laws hold in every run. Dafny's automatic induction is switched off throughout: every induction is written out.

## What the parts take for granted

- Hashing, compression, the JSON documents and reference normalization are functions in the record `Formats`. `Lawful`
  says that writing and reading back, or compressing and decompressing, is the identity, and that hashes are SHA-256
  digests. Nothing says that hashes never collide: the store remembers in `collided` whether two contents with one
  digest have met, and a law that a collision would break asks that none did, or that the contents at hand do not
  collide (`CollisionFree`).
- The cache relies on three things that its file does not check. Candidates are aligned (`AlignedCandidate`); a chain
  of history texts determines its layers (`Truthful`); and the history of the base image has one entry for each of its
  layers and tells the chain of instructions that it is the result of (`Faithful`). `AlignmentNeeded` and `TruthNeeded`
  show that the first two cannot go, and `CacheReliableExactly` that the third is exactly what a base image needs.
- The digest's stream determines its trees if no name holds a slash (none can in a file system), no label, name or
  symlink target holds a newline, symlinks show ` -> ` once, and no source lies beneath the one before it. `DigestLimits`
  has two trees with the same stream for each premise left out but the first.
- Directories list real names: not empty, without a slash, neither `.` nor `..`, and each once. Given that, the premise
  `Inherited` of the theorems about ignored paths holds of every list of patterns (`CompiledInherits`). How one pattern
  segment matches one path segment is a function.
- The launch call runs its pid callback before it returns, and returns only after the container's init has exited. Whether
  `/dev/null` can be opened in the launcher and in the logger is a parameter.
- The kernel hands out a loop device that is neither attached nor mounted; an unmount works exactly when nothing has been
  mounted on or beneath the mount since.
- Timestamps hold no space and no newline, as those of section 5.6 of RFC 3339 written with a `T`.

## Where the code does less than its comments say

- The entries of a log depend on how the kernel happens to cut the stream into reads, exactly when some line's length
  is a positive multiple of 8192 (`CutsMatterExactlyForBlockLines`). What a reader puts together never depends on it.
- `bin/ocicri/src/launcher.rs:348-352` says that a reader acting on the recorded exit never races an incomplete log.
  Releasing the pipes first makes end of file possible, but nothing waits for the logger to get there
  (`ExitMayPrecedeLog`). The promise holds in every run exactly for containers without a log
  (`LogCompleteAtExitExactly`); what does hold with one is that the logger can then finish by itself (`LoggerFinishes`).
- `bin/ocicri/src/launcher.rs:36-37` says that `start-error` means that no pid ever existed. It is also written when a
  hook fails between the container process coming into being and its pid being reported (`StartErrorAfterLaunch`), and
  when `exit.json` cannot be written (`StartErrorAfterPid`). It means that no pid ever existed exactly when the failure
  came before the launch, and that none was ever reported exactly when it came before the pid callback
  (`StartErrorExactly`).
- `bin/ociman/src/build_cache.rs:272-273` calls the digest's byte stream self-delimiting. It is not. With another ` -> `
  in its label or target, a symlink has the record of another one (`OneArrowExactly`, `AmbiguousSymlinks`). With a
  newline in its target it can imitate the records after it (`NewlineInTarget`), and with a newline in its name an empty
  file can imitate one with contents (`NewlineInName`). Without these the stream determines the tree, for any file
  contents (`StreamDeterminesTree`). Among newline-free inputs the exact conditions are: for a list of records, that every
  arrow is shown once (`RecordsDeterminedExactly`); for a tree, that no symlink in it can be read at another arrow under
  a name that keeps its place among its siblings (`TreeDeterminedExactly`).
- `crates/oci-dockerfile/src/dockerignore.rs:404-407` says that without a negation nothing under an ignored directory can
  be re-included. That holds for every path (`CompiledInherits`) but the bare root: a lone `/` is matched as two empty
  segments, which its entries do not begin with. With the pattern `/`, a source labelled `/` is skipped as a whole though
  none of its files is ignored (`PrunedRootSkipsMore`).
- With `--omit-history` the lookup position in the candidate's layers and the position in its history no longer belong
  together, and a cached layer of another instruction can be taken, on every base image (`OmittedHistoryMisleads`). The
  same happens, with the history kept, on a base image that has a layer and no history entry for it, such as one built
  with that option (`UnfaithfulBaseMisleads`). The cache agrees with running every instruction exactly when the history
  is kept and that of the base image is faithful (`CacheReliableExactly`).
- The order of `load_all` is called stable (`bin/ocicri/src/records.rs:70-71`). It depends on the order of the directory
  listing exactly when every record file can be read and two of them hold different records of the same ID and time,
  which saving and removing never bring about (`RecordOrder.ListingOrderIrrelevant`).
- `bin/ociboot-init/src/main.rs:223-228` promises that a half-assembled root never lingers, and speaks of a lazy detach.
  The teardown uses plain unmounts, and `/var` is bound recursively: with a mount beneath the state directory's `var`, a
  later failure leaves `/var`, its submounts, the image and the loop device behind (`SubmountLeaks`). After a failed
  image mount the device is detached once, without the retries of the teardown. `FailureRestores` gives the exact
  condition.
- An oci-archive of an image whose reference does not parse is written without complaint and cannot be loaded
  (`UnreadableReferenceRefused`); so is a docker-archive whose config does not list its layers' digests
  (`DockerMismatchRefused`).
- `reorder_fhs_path` on a path of nothing but local directories adds an empty segment (`ReorderKeepsOthersExactly`);
  `build_container_path` never calls it on one.

## Model

| member | source | states |
|---|---|---|
| CriLog.ParseFormattedLine | bin/ocicri/src/launcher.rs:378-390 | a reader that splits a line at its first three spaces gets back timestamp, stream, tag and content, whatever bytes the content holds |
| CriLog.ParseFormatted | bin/ocicri/src/launcher.rs:378-390 | reading a whole file line by line is a left inverse of writing it |
| CriLog.LinePrinted | bin/ocicri/src/launcher.rs:378-390 | a line's bytes are the timestamp, `stdout` or `stderr`, `F` or `P`, the content and a newline, spelled out, with single spaces between |
| CriLog.InterruptedSkipped | bin/ocicri/src/launcher.rs:410-415 | an interrupted read changes nothing, wherever it happens |
| CriLog.StopsAtEnd | bin/ocicri/src/launcher.rs:410-415 | nothing is read after end of file or another error |
| CriLog.StampedAt | bin/ocicri/src/launcher.rs:425-443 | the i-th entry carries its own stream's name and the i-th reading of the clock |
| CriLog.NextChunk | bin/ocicri/src/launcher.rs:422-443 | every pass of the inner loop shortens `pending`, and the loop stops exactly at a newline-free rest shorter than 8192 |
| CriLog.SplitReassembles | bin/ocicri/src/launcher.rs:409-453 | joining the entries, with a newline after each full one, gives back the stream's bytes for every cutting into reads |
| CriLog.SplitShape | bin/ocicri/src/launcher.rs:422-453 | no entry exceeds 8192 bytes or holds a newline, and every partial entry but a last one is exactly 8192 bytes |
| CriLog.PendingBounded | bin/ocicri/src/launcher.rs:407-416 | between reads `pending` is newline-free, and it never exceeds 8191 + 4096 bytes |
| CriLog.LogFile.WriteLine | bin/ocicri/src/launcher.rs:429-431 | one whole line is appended and the file remains the formatted lines |
| CriLog.EmitEntries | bin/ocicri/src/launcher.rs:422-444 | the inner loop ends, having written the entries of the buffer in order, and returns what stays pending |
| CriLog.CopyStreamAsCri | bin/ocicri/src/launcher.rs:400-454 | for every sequence of read results (data, interruptions, end of file, errors) the loops write exactly the entries of the data read, each with its own timestamp |
| CriCuts.BlockLineForms | bin/ocicri/src/launcher.rs:422-443 | the two forms of a line whose length is a positive multiple of 8192 differ only at the end: one full `F` entry, or a `P` entry and an empty `F` |
| CriCuts.EveryCuttingSplits | bin/ocicri/src/launcher.rs:416-453 | whatever the reads, the entries are those of the stream's lines, each line in one of its at most two forms |
| CriCuts.BlockLineDiffers | bin/ocicri/src/launcher.rs:416-444 | every stream with such a line has two cuttings whose entries differ |
| CriCuts.CutsMatterExactlyForBlockLines | bin/ocicri/src/launcher.rs:395-444 | all cuttings of a stream give the same entries if and only if no line's length is a positive multiple of 8192 |
| CriLogger.RotationKeeps | bin/ocicri/src/launcher.rs:536-564 | renaming the log away, opening it again and swapping the handle lose, duplicate and reorder nothing |
| CriLogger.StepKeeps | bin/ocicri/src/launcher.rs:519-569 | every step of the two writers and the reopen listener keeps the invariant tying files, handles, pending bytes and emitted lines |
| CriLogger.FilesHoldEveryLineOnce | bin/ocicri/src/launcher.rs:519-569 | in every run the files, in the order they were first opened, are the emitted lines, each once, whole and in order; no file ends inside a line |
| CriLogger.LogReassemblesEachStream | bin/ocicri/src/launcher.rs:400-569 | for all reads, interleavings, clocks, renames and reopenings, parsing the files and joining one stream's entries gives back that pipe's bytes |
| Launcher.ReachableInv | bin/ocicri/src/launcher.rs:202-575 | in every run each pipe end is held by exactly the processes whose positions say so, and the pid callback has run and `exit.json` exists exactly as the launcher's position, or the one it failed at, says |
| Launcher.LoggerNeverWaitsForItself | bin/ocicri/src/launcher.rs:508-515 | with its redirection the logger never waits for an end of file that only it holds back; without it, it never finishes |
| Launcher.LoggerFinishes | bin/ocicri/src/launcher.rs:462-469 | wherever the redirected logger is, from being forked to draining, once launcher and container have let go of the pipes, steps of its own lead to its end |
| Launcher.UnredirectedLoggerHangs | bin/ocicri/src/launcher.rs:509-515 | a run in which a logger without its redirection waits for itself |
| Launcher.OneOutcome | bin/ocicri/src/launcher.rs:202-217 | `exit.json` and `start-error` never both exist, and `exit.json` implies that the pid callback has run and the container's init has exited |
| Launcher.ExitAfterRelease | bin/ocicri/src/launcher.rs:348-368 | when the exit is recorded the launcher holds no pipe end, provided that its redirection worked or there was no log; otherwise it holds both |
| Launcher.FinishedLogIsComplete | bin/ocicri/src/launcher.rs:566-570 | a finished logger has read everything and nobody can write any more |
| Launcher.ExitMayPrecedeLog | bin/ocicri/src/launcher.rs:348-368 | for every configuration with a log, a run in which the exit is recorded with any numbers of bytes unread in the two pipes, up to their capacity |
| Launcher.LogCompleteAtExitExactly | bin/ocicri/src/launcher.rs:348-352 | in all runs of a configuration everything is read when the exit is recorded, if and only if there is no log or the pipes hold nothing |
| Launcher.StartErrorAfterPid | bin/ocicri/src/launcher.rs:202-217 | a run in which `pid` and `start-error` both exist |
| Launcher.StartErrorAfterLaunch | crates/oci-runtime-core/src/launch.rs:405-432 | a run in which `start-error` exists, no pid was reported, and yet a container process had existed |
| Launcher.StartErrorExactly | bin/ocicri/src/launcher.rs:36-37 | in every run, `start-error` means that no container process, and so no pid, ever existed if and only if the failure came before the launch, and that no pid was reported if and only if it came before the pid callback |
| Launcher.FailureReported | bin/ocicri/src/launcher.rs:202-217 | from every reachable position with a call that can fail, a failure leads to `start-error`, with the process and the report there exactly as the position says |
| Launcher.PidWriteMayFail | bin/ocicri/src/launcher.rs:341-343 | a run in which the container exits and that is recorded although `pid` could not be written |
| Launcher.ErrorWriteMayFail | bin/ocicri/src/launcher.rs:205-213 | for every configuration, a failing launcher that leaves no file behind at all |
| ImageStore.Store.Ingest | crates/oci-store/src/lib.rs:201-250 | the content is stored under its digest unless that digest is there already |
| ImageStore.Store.IngestVerified | crates/oci-store/src/lib.rs:211-250 | content that does not hash to the expected digest is refused and nothing is stored |
| ImageStore.Store.PutImage | crates/oci-store/src/lib.rs:254-256 | the reference now names this manifest |
| ImageStore.IngestSound | crates/oci-store/src/lib.rs:201-250 | ingesting keeps every blob under its own digest and every reference complete |
| ImageStore.PutImageSound | crates/oci-store/src/lib.rs:254-256 | recording a reference to a complete image keeps every reference complete |
| ImageStore.UntaggedIsUntagged | crates/oci-store/src/resolve.rs:24-34 | the sentinel of a digest is recognised as untagged |
| ArchiveLoad.LoadOciIndex | bin/ociman/src/archive.rs:558-670 | the checks, the recorded reference and every error of an oci-archive's end |
| ArchiveLoad.CollectLayers | bin/ociman/src/archive.rs:709-717 | the named layers in order, or an error at a name the archive never included |
| ArchiveLoad.RecordTags | bin/ociman/src/archive.rs:747-759 | every tag is recorded in order, up to the first that does not parse |
| ArchiveLoad.LoadDockerManifest | bin/ociman/src/archive.rs:679-778 | the checks, the fresh manifest, the recorded tags and every error of a docker-archive's end |
| ArchiveLoad.LoadArchive | bin/ociman/src/archive.rs:463-551 | the loop over the entries and the choice of format leave exactly the store and outcome of `Load`, also where it stops early |
| ArchiveMeaning.OciLoads | bin/ociman/src/archive.rs:558-670 | an oci-archive that passes the checks is recorded under containerd's name if the index entry has one, else under the standard's, normalized, and under the sentinel without either; nothing else is recorded |
| ArchiveMeaning.OciChecksExactly | bin/ociman/src/archive.rs:563-619 | an oci-archive is accepted if and only if its layout version is 1.0.0 and its index names exactly one image manifest that is there, can be read and has its config and layers there |
| ArchiveMeaning.OciErrors | bin/ociman/src/archive.rs:563-619 | each refusal says which of these is missing, once all that is asked before it is right |
| ArchiveMeaning.DockerChecksExactly | bin/ociman/src/archive.rs:685-724 | a docker-archive is accepted if and only if it names one image, whose config and layers are there and whose config lists the layers' own digests in order |
| ArchiveMeaning.DockerErrors | bin/ociman/src/archive.rs:685-724 | each refusal says which of these is missing, once all that is asked before it is right |
| ArchiveMeaning.FreshManifestSpelled | bin/ociman/src/archive.rs:726-739 | the manifest made up for it, field by field: the config's digest and size, and the layers' descriptors in the order named |
| ArchiveMeaning.TagsRecorded | bin/ociman/src/archive.rs:747-759 | every tag before the first that does not parse names the manifest under its normalization; every other reference is as it was |
| ArchiveMeaning.DockerEnd | bin/ociman/src/archive.rs:740-778 | the fresh manifest is stored under its hash, and recorded under the tags or, without any, under the sentinel |
| ArchiveMeaning.EntryErrors | bin/ociman/src/archive.rs:490-499 | what is wrong with the entry that stops the pass |
| ArchiveMeaning.BlobPaths | bin/ociman/src/archive.rs:490-499 | an entry is a blob if and only if its path is `blobs/sha256/` and 64 lowercase hexadecimal digits, and an error for every other path under it |
| ArchiveMeaning.ConfigPaths | bin/ociman/src/archive.rs:515-527 | a docker config is a file at the top whose name ends in `.json`, but for the files with a fixed name |
| ArchiveMeaning.FormatChosen | bin/ociman/src/archive.rs:541-550 | an index makes it an oci-archive, whatever else is there; else `manifest.json` a docker-archive; else the load fails |
| ArchiveLaws.FreshManifestComplete | bin/ociman/src/archive.rs:697-745 | the manifest made up for a docker-archive names only blobs that are in the store |
| ArchiveLaws.LoadKeeps | bin/ociman/src/archive.rs:463-778 | whatever the archive and wherever the load stops, blobs only grow and hash to their names, and every reference still points to a complete image |
| ArchiveLaws.LoadAllKeeps | bin/ociman/src/archive.rs:463-778 | the same over every sequence of loads of arbitrary archives, failures included |
| ArchiveLaws.ScanFailsExactly | bin/ociman/src/archive.rs:479-539 | the pass fails if and only if some entry is a nested, misnamed or mismatched blob |
| ArchiveLaws.ScanDescribes | bin/ociman/src/archive.rs:479-539 | what the pass has buffered and stored is described by the set of entries alone |
| ArchiveLaws.OrderIndependent | bin/ociman/src/archive.rs:479-551 | archives with the same entries in any order both load or both fail, and if every entry can be read, with the same references, manifest and store |
| ArchiveSave.SaveOciArchive | bin/ociman/src/archive.rs:61-144 | the loop with its set of written digests writes exactly the entries of `SaveOci`, or fails at a missing blob |
| ArchiveSave.SaveDockerArchive | bin/ociman/src/archive.rs:190-249 | the loop over the layers writes exactly the entries of `SaveDocker`, or fails at a layer that cannot be uncompressed |
| ArchiveSave.OciPathsDistinct | bin/ociman/src/archive.rs:347-398 | no path occurs twice in a saved oci-archive, so every blob is in it once |
| ArchiveMeaning.OciFrame | bin/ociman/src/archive.rs:77-140 | the first three entries of an oci-archive and its index at the end, with the manifest's digest and size and the reference's annotation unless untagged |
| ArchiveMeaning.OciBlobsInOrder | bin/ociman/src/archive.rs:89-108 | between them stand manifest, config and layers, each under its own name with its own content, in the order of their first use |
| ArchiveMeaning.DockerSpelled | bin/ociman/src/archive.rs:214-243 | the entries of a docker-archive one by one: config, layers in order, each named after its own hash, and the manifest naming them and the reference |
| ArchiveMeaning.LayersUncompressed | bin/ociman/src/archive.rs:260-304 | each layer in it is the stored blob, uncompressed as its media type says |
| ArchiveMeaning.MediaTypes | crates/oci-layer/src/lib.rs:109-117 | the two gzip types, the plain and the zstd type are uncompressed accordingly, and there are no others |
| ArchiveSave.OciRoundTrip | bin/ociman/src/archive.rs:61-144 | loading a saved oci-archive into an empty store gives exactly the image's own blobs and exactly one record, equal to the saved one if and only if its reference is normalized or the sentinel |
| ArchiveSave.UnreadableReferenceRefused | bin/ociman/src/archive.rs:631-634 | an image whose reference does not parse is saved but not loaded back |
| ArchiveDocker.DockerFixedPoint | bin/ociman/src/archive.rs:190-304 | if none of the contents collide, saving, loading into any store and saving again gives the same entries, and keeps the config and the ordered uncompressed layers, with repeated or differently compressed layers too |
| ArchiveDocker.DockerLoads | bin/ociman/src/archive.rs:679-778 | a saved docker-archive whose diff IDs match is recovered under the normalized reference, or refused if that does not parse |
| ArchiveDocker.DockerFixedPointExactly | bin/ociman/src/archive.rs:190-304 | saving, loading and saving again gives the same entries if and only if the config lists the layers' digests and the reference is normalized or untagged |
| ArchiveDocker.DockerMismatchRefused | bin/ociman/src/archive.rs:718-724 | an archive whose config does not list its layers' own digests never loads |
| BuildCache.OfferIsExact | bin/ociman/src/build_cache.rs:149-223 | an aligned candidate makes an offer if and only if it continues the history with this instruction, and offers its own layer and diff ID of that very entry |
| BuildCache.HitIsExact | bin/ociman/src/build_cache.rs:196-223 | a hit is some candidate's own layer for the entry; a miss means that no candidate continues the history |
| BuildCache.FirstCandidateWins | bin/ociman/src/build_cache.rs:196-223 | the hit is the layer, diff ID and entry of the first candidate that continues the history, whatever later ones offer |
| BuildCache.HitSplicedVerbatim | bin/ociman/src/build.rs:2085-2110 | the image after a hit has that candidate's own entry, creation time included, its layer and its diff ID appended, and is otherwise as before |
| BuildCache.ReuseAgrees | bin/ociman/src/build.rs:2085-2110 | splicing a hit into a faithful build keeps it faithful and aligned and adds the layer that running the instruction would have committed |
| BuildCache.FollowStep | bin/ociman/src/build_cache.rs:162-223 | after a candidate's first n instructions, its next one hits if it makes a layer, and the build still follows the candidate |
| BuildCache.CacheAgreesWithRunning | bin/ociman/src/build_cache.rs:181-223 | on a faithful base a whole build with the cache has the same layers, diff IDs and history texts as one that runs every instruction |
| BuildCache.CandidatesDoNotMatter | bin/ociman/src/build_cache.rs:189-195 | on a faithful base, adding, removing or reordering candidates never changes the image |
| BuildCache.RebuildRunsNothing | bin/ociman/src/build_cache.rs:196-223 | rebuilding an available image from any point of its history runs no layer instruction |
| BuildCache.AlignmentNeeded | bin/ociman/src/build_cache.rs:210-216 | without alignment a candidate's layer can be taken for the wrong instruction |
| BuildCache.TruthNeeded | bin/ociman/src/build_cache.rs:149-160 | a candidate with the right texts and another layer is reused all the same |
| BuildCacheLimits.UnfaithfulBaseMisleads | bin/ociman/src/build_cache.rs:196-223 | on every base whose history does not tell its layers and its chain, a good candidate misleads the very first lookup |
| BuildCacheLimits.OmittedHistoryMisleads | crates/oci-dockerfile/src/commit.rs:211-260 | on every faithful base, a build without recorded history takes the layer of another instruction |
| BuildCacheLimits.CacheReliableExactly | bin/ociman/src/build.rs:1930-1938 | for every base: the cache agrees with running, whatever the world, the good candidates and the program, if and only if the history is kept and the base is faithful |
| DigestRecords.DecimalReadsBack | bin/ociman/src/build_cache.rs:323-323 | a file's length reads back from its decimal digits |
| DigestRecords.FirstRecord | bin/ociman/src/build_cache.rs:307-325 | a record without a newline in label or target, and with one arrow, can be read off the front of any stream of such records |
| DigestRecords.StreamDeterminesRecords | bin/ociman/src/build_cache.rs:307-325 | a stream determines its records, whatever bytes the files hold, if no label or target holds a newline and one side shows its arrows once |
| DigestRecords.RecordsDeterminedExactly | bin/ociman/src/build_cache.rs:307-325 | among lists of records without newlines, a stream determines its list if and only if every symlink of it shows the arrow once |
| DigestArrows.TreeAlike | bin/ociman/src/build_cache.rs:307-326 | trees in order whose records are written alike are the same but for where arrows are read |
| DigestArrows.OneSuffices | bin/ociman/src/build_cache.rs:307-320 | if two readings of a directory differ in a name, a single symlink can be read differently in its place |
| DigestArrows.TreeDeterminedExactly | bin/ociman/src/build_cache.rs:272-327 | a clean tree is the only one with its stream under its label, up to listing order, if and only if no symlink in it can be read at another arrow under a name that keeps its place |
| DigestRecords.OneArrowExactly | bin/ociman/src/build_cache.rs:307-309 | a symlink's record, newlines or not, is that of no other path if and only if it shows the arrow once |
| DigestRecords.NoArrowText | bin/ociman/src/build_cache.rs:307-309 | it does so if neither the label nor the target holds `->` |
| ContentDigest.HashEntries | bin/ociman/src/build_cache.rs:312-320 | the loop over the sorted entries writes the records of the directory's contents in name order |
| ContentDigest.HashPath | bin/ociman/src/build_cache.rs:279-327 | the recursion writes exactly the tree's stream, with ignored paths skipped |
| ContentDigest.HashSources | bin/ociman/src/build_cache.rs:259-270 | the loop writes the streams of the sources in the given order |
| DigestMeaning.RecordSpelled | bin/ociman/src/build_cache.rs:307-325 | the bytes of a record, spelled out for files, symlinks and directories |
| DigestMeaning.DecimalPlain | bin/ociman/src/build_cache.rs:323-323 | a length is written in decimal digits without leading zeros |
| DigestMeaning.EntriesInByteOrder | bin/ociman/src/build_cache.rs:312-320 | a directory's entries are visited each once, in the byte order of their names: proper prefixes first, else the smaller byte where two first differ |
| DigestMeaning.EntriesWalk | bin/ociman/src/build_cache.rs:312-320 | each entry is walked under the directory's path, a slash and its name, after those listed before it |
| DigestLaws.TreeFromRecords | bin/ociman/src/build_cache.rs:307-326 | a tree's records, followed by anything not beneath it, determine the tree and the rest, whatever its names and targets hold but a slash in a name |
| DigestLaws.StreamDeterminesTree | bin/ociman/src/build_cache.rs:272-327 | two trees without newlines in names and targets, one with unambiguous arrows, feed the hasher the same bytes if and only if they have the same label and are the same up to listing order |
| DigestLaws.StreamDeterminesSources | bin/ociman/src/build_cache.rs:259-270 | the same for all the sources of one instruction, none of which lies beneath the one before it |
| DigestLimits.ApartNeeded | bin/ociman/src/build_cache.rs:259-270 | sources beneath one another can give the stream of another list of sources |
| DigestLaws.ListingOrderIrrelevant | bin/ociman/src/build_cache.rs:274-278 | the order in which directories are listed, at any depth, does not reach the hasher |
| DigestLimits.AmbiguousSymlinks | bin/ociman/src/build_cache.rs:307-309 | for all names and targets, two different directories with the same stream, told apart only by where an arrow is read |
| DigestLimits.ArrowNeeded | bin/ociman/src/build_cache.rs:307-309 | both of those can be free of newlines and slashes |
| DigestLimits.NewlineInTarget | bin/ociman/src/build_cache.rs:307-311 | for all names, two different directories with the same stream, one with a newline in a symlink's target |
| DigestLimits.NewlineNeeded | bin/ociman/src/build_cache.rs:307-311 | the other of those two can be clean and unambiguous |
| DigestLimits.NewlineInName | bin/ociman/src/build_cache.rs:321-325 | for all names, two different directories with the same stream, one with a newline in a file's name |
| DockerIgnore.SegmentsBelow | crates/oci-dockerfile/src/dockerignore.rs:128-214 | cleaning a path with a real name below it gives the cleaned path and one more segment, but for the bare root |
| DockerIgnore.MatchedBelow | crates/oci-dockerfile/src/dockerignore.rs:329-332 | without a negated pattern, whatever matches a path or one of its parents matches everything below it |
| DockerIgnore.CompiledInherits | crates/oci-dockerfile/src/dockerignore.rs:404-460 | for every list of patterns without a negation, every real name below an ignored path other than the bare root is ignored |
| DockerIgnore.RootAlone | crates/oci-dockerfile/src/dockerignore.rs:437-448 | the pattern `/` ignores the bare root and no name below it |
| DockerIgnore.IgnoredExactly | crates/oci-dockerfile/src/dockerignore.rs:437-460 | for every list of patterns, a path is ignored if and only if some plain pattern matches it or a directory it is in and no later negated pattern does |
| IgnoreMeaning.CleanLeadsThere | crates/oci-dockerfile/src/dockerignore.rs:128-214 | a cleaned path spells out where its components lead: so many directories up, then down; from the root there is no way up |
| IgnoreMeaning.MatchesExactly | crates/oci-dockerfile/src/dockerignore.rs:283-318 | a pattern matches a path if and only if the path can be cut into one fitting segment for each glob and any run of segments for each `**`, which takes at least one at the end |
| IgnoreMeaning.ParentsTried | crates/oci-dockerfile/src/dockerignore.rs:329-332 | a pattern is tried on a path and on every directory it is in: it matches if and only if some leading part of the path's segments can be cut up so |
| DigestIgnore.SkippingIsDropping | bin/ociman/src/build_cache.rs:290-305 | unless the bare root is ignored, skipping ignored directories, or descending into them only for negations, is visiting every path and dropping the ignored ones |
| DigestIgnore.PatternsSkipAndDrop | bin/ociman/src/build_cache.rs:290-305 | for every list of patterns the walk writes the records that are not ignored, or nothing at all if it ends at an ignored bare root |
| DigestIgnore.PrunedRootSkipsMore | bin/ociman/src/build_cache.rs:290-305 | at an ignored bare root the walk skips files that are not ignored |
| DigestIgnore.IgnoredPathsDoNotMatter | bin/ociman/src/build_cache.rs:246-258 | trees that agree on the paths that are not ignored give the same stream, under every label, with or without negation |
| DigestIgnore.DigestSeesExactlyWhatIsCopied | bin/ociman/src/build_cache.rs:246-327 | and only those do, if the bare root is not ignored, names and targets hold no newline and symlinks are unambiguous |
| MountTable.UnmountAbove | crates/oci-mount/src/syscalls.rs:75-83 | unmounting beneath a mount leaves it and everything before it alone |
| MountTable.UnmountBase | crates/oci-mount/src/syscalls.rs:75-83 | a mount comes off if and only if nothing is left beneath it |
| BootMount.SpecAccepted | bin/ociboot-init/src/main.rs:116-147 | a command line is accepted if and only if it names a plain file and, if it asks for a digest, 64 hexadecimal digits, which are then lowercase |
| BootMount.DigestGiven | bin/ociboot-init/src/main.rs:134-146 | an accepted digest is the given one, its letters lowercase |
| BootMount.DigestAccepted | bin/ociboot-init/src/main.rs:134-146 | asking for a digest is accepted if and only if it is 64 characters among the digits and the letters `a` to `f` of either case |
| BootMount.ViewComesDown | bin/ociboot-init/src/main.rs:250-254 | wherever the assembly stops, its mounts come off again if the recursive bind brought none along |
| BootMount.CopiesStay | bin/ociboot-init/src/main.rs:251-253 | if it did, `/var` and the copies stay, and only they |
| BootMount.TeardownAfterFault | bin/ociboot-init/src/main.rs:250-284 | the teardown restores the mount table, or leaves the image mounted if the recursive bind brought mounts along before the failure |
| BootMount.FailureRestores | bin/ociboot-init/src/main.rs:149-398 | whichever step fails, mount table and loop devices are afterwards as before, if and only if the attempt does not leak in one of three named ways |
| BootMount.SubmountLeaks | bin/ociboot-init/src/main.rs:341-357 | an attempt that leaks although every unmount and detach that can work does |
| BootMount.AttachedOnlyVerified | bin/ociboot-init/src/main.rs:193-221 | no image is attached unless the command line is sound and no digest was asked for or the measured one is it; before that nothing changes |
| BootSuccess.SuccessMounts | bin/ociboot-init/src/main.rs:149-238 | after an attempt that succeeds the image is attached and mounted, and with a state directory a lookup at `etc`, `var`, `run` and `tmp` ends on the overlay of the state's `etc`, the bind of its `var` and a tmpfs each |
| BootSuccess.StopsAtFirstFault | bin/ociboot-init/src/main.rs:149-398 | the command names the first step that fails, in the order of the listed steps, after its three refusals, and succeeds if and only if none does |
| BootSuccess.RestoredExactly | bin/ociboot-init/src/main.rs:223-284 | in terms of the step it stopped at: a failed attempt leaves table and devices as before if and only if it came before the attachment, or the one detach works, or the detach of the teardown works in time and the bind brought nothing along |
| BootHost.Prepare | bin/ociboot-init/src/main.rs:296-332 | the checks before the first mount stop at the first that fails |
| BootHost.Host.MountErofsViaLoop | bin/ociboot-init/src/main.rs:366-398 | attaching, mounting, and the single detach after a failed mount |
| BootHost.Host.AssembleWritableView | bin/ociboot-init/src/main.rs:296-359 | the mounts made up to the first step that fails |
| BootHost.Host.TeardownTarget | bin/ociboot-init/src/main.rs:250-284 | the unmounts in order, and the device released exactly if it is unused and some attempt before the deadline works |
| BootHost.Host.DetachRetrying | bin/ociboot-init/src/main.rs:268-283 | the device is released exactly if nothing mounts it and some attempt before the deadline is accepted and takes effect |
| BootHost.Host.CmdMount | bin/ociboot-init/src/main.rs:149-238 | succeeds if and only if no step fails; a failed attempt restores the machine if and only if it does not leak |
| ContainerPath.MergeDirs | bin/ocibox/src/main.rs:1815-1822 | exactly the missing directories are appended, in order |
| ContainerPath.ExpandPath | bin/ocibox/src/main.rs:1829-1848 | the local directories are dropped and put back before each of their counterparts |
| ContainerPath.ReorderFhsPath | bin/ocibox/src/main.rs:1828-1855 | the result's segments are the reordered ones |
| ContainerPath.BuildContainerPath | bin/ocibox/src/main.rs:1803-1824 | which of the three sources the path comes from, and its value |
| ContainerPath.HostPathResult | bin/ocibox/src/main.rs:1803-1824 | for every nonempty host path all six standard directories are there, each local one stands immediately before its counterpart and nowhere else, and all other segments keep order and multiplicity |
| ContainerPath.WithoutHostPath | bin/ocibox/src/main.rs:1803-1814 | a clean path is the six standard directories; without a host path it is the container's own, or those six if that is empty |
| ContainerPath.LocalsInFront | bin/ocibox/src/main.rs:1848-1853 | without their counterparts the two local directories stand in front, `sbin` first, and nowhere else |
| ContainerPath.PathIsFixedPoint | bin/ocibox/src/main.rs:1803-1824 | building the path from its own result changes nothing |
| ContainerPath.ReorderIdempotent | bin/ocibox/src/main.rs:1828-1855 | reordering any path twice is reordering it once |
| ContainerPath.ReorderKeepsOthersExactly | bin/ocibox/src/main.rs:1828-1855 | reordering keeps all other segments if and only if there is one |
| RecordStore.LoadAll | bin/ocicri/src/records.rs:72-94 | the loop and the sort give the sorted records, or an error at a file that does not parse |
| RecordStore.LoadIsListing | bin/ocicri/src/records.rs:72-94 | the result holds every record once, newest first and ties by ID |
| RecordStore.LoadsNewestFirst | bin/ocicri/src/records.rs:88-92 | of two records in the list the later one was not created after the earlier, and at equal times the earlier ID is a prefix of the later or has the smaller byte where they first differ |
| RecordStore.LoadsJsonFiles | bin/ocicri/src/records.rs:79-87 | the list holds what the listed files called `<something>.json` hold, and nothing else |
| RecordStore.ConsistentOrderIrrelevant | bin/ocicri/src/records.rs:72-94 | the order in which a directory written by saves and removes is listed does not matter |
| RecordOrder.ListingOrderIrrelevant | bin/ocicri/src/records.rs:72-94 | for every directory: all listing orders give the same list or error, if and only if a file cannot be read or no two files hold different records of the same ID and time |
| RecordOrder.ConsistentSettled | bin/ocicri/src/records.rs:61-68 | a directory written by saves and removes meets that condition |
| RecordStore.PickOnly | bin/ocicri/src/records.rs:104-113 | no match, the only match, or an error for two |
| RecordStore.FindByIdPrefix | bin/ocicri/src/records.rs:100-114 | the empty prefix finds nothing, an unreadable file fails the lookup, and otherwise a record is returned if and only if it is the only match |
| RecordStore.AnswerUnique | bin/ocicri/src/records.rs:100-114 | each directory and prefix has one answer |
| RecordStore.FullIdLookup | bin/ocicri/src/records.rs:100-114 | a full ID finds its record unless another stored ID extends it |
| RecordStore.Directory.Save | bin/ocicri/src/records.rs:61-68 | the record's file, and no other, now holds it |
| RecordStore.Directory.Remove | bin/ocicri/src/records.rs:118-124 | the file is gone, and the answer says whether it was there |
| RecordStore.RunsKeepLatest | bin/ocicri/src/records.rs:61-124 | after every run of saves and removes each ID has exactly its last saved version |
| RecordStore.RunListing | bin/ocicri/src/records.rs:61-94 | after every run, in any listing order, the list is that of the last saved versions, newest first |
| RecordStore.RunLookup | bin/ocicri/src/records.rs:100-124 | after every run on IDs of one length a full ID yields its last saved version and is never ambiguous |

## Left out

- SHA-256, gzip, zstd, JSON and tar layouts: functions with the laws named above; an archive is a sequence of paths, kinds and contents.
- Failed and partial writes to the log, a poisoned lock, and a reopening that fails: the source ignores all of them; the model's writes succeed, and a failed reopening is no step.
- Timestamps are parameters; the order of the two streams' timestamps is not stated.
- File permissions, ownership and modification times in archives, and the `urls`, `platform` and index-level fields of the documents.
- Digests other than SHA-256, and reading errors in the middle of an archive or of a source tree.
- File names that are not UTF-8: the source replaces their bad bytes in labels, the model's names are what the labels show.
- Reading `.dockerignore` lines, compiling patterns, matching a single segment against a glob, and the byte buffer of `clean_path`: a pattern is its segments and whether it is negated, and a path is cleaned component by component.
- `safe_join` and the trimming of leading slashes before a source is hashed: a source is its label and the tree found there.
- Loading cache candidates from the store (`load_candidates`), computing an instruction's text, and applying a cached layer to the root file system: the build's layers are those that the `World` gives for a chain of texts.
- Deadlines are a number of retries; whether a detach is accepted and settles is a parameter for each attempt.
- Splitting the kernel command line into parameters, and the command's own flags: the two parameters are given as found or missing.
- Mount propagation, mount namespaces and lazily detached mounts; what the overlay shows.
- The directories that a failed boot attempt has created: only the mount table and the loop devices are restored.
- IDs that contain a slash, and input or output errors of the record directory other than a file that does not parse.
- The CRI services, the rest of `ocibox`, networking, the runtime core, and starting or executing containers beyond the protocol above: requests handled by calls into other code.
- `read_exit` and `write_atomic`: a protocol file appears whole or not at all.
