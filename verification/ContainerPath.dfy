/** `build_container_path` and `reorder_fhs_path`: the `PATH` a box's processes get. */
module ContainerPath {
  import opened Seqs

  const LOCAL_SBIN := "/usr/local/sbin"
  const LOCAL_BIN := "/usr/local/bin"
  const USR_SBIN := "/usr/sbin"
  const USR_BIN := "/usr/bin"

  const STANDARD_PATH_DIRS: seq<string> := [LOCAL_SBIN, LOCAL_BIN, USR_SBIN, USR_BIN, "/sbin", "/bin"]

  // ----- splitting and joining at colons -----

  function Split(path: string): (r: seq<string>)
    ensures r != [] && forall s :: s in r ==> ':' !in s
    decreases |path|
  {
    match SplitOnce(path, ':')
    case None => [path]
    case Some((first, more)) => [first] + Split(more)
  }

  function Join(segments: seq<string>): string {
    if segments == [] then "" else if |segments| == 1 then segments[0] else segments[0] + [':'] + Join(segments[1..])
  }

  lemma {:induction false} JoinSplit(path: string)
    ensures Join(Split(path)) == path
    decreases |path|
  {
    match SplitOnce(path, ':')
    case None =>
    case Some((first, more)) =>
      JoinSplit(more);
      assert ([first] + Split(more))[1..] == Split(more);
  }

  predicate NoColons(segments: seq<string>) {
    forall s :: s in segments ==> ':' !in s
  }

  lemma {:induction false} SplitPrepend(segment: string, path: string)
    requires ':' !in segment
    ensures Split(segment + [':'] + path) == [segment] + Split(path)
  {
    SplitOnceAt(segment, ':', path);
  }

  lemma {:induction false} SplitJoin(segments: seq<string>)
    requires segments != [] && NoColons(segments)
    ensures Split(Join(segments)) == segments
  {
    FirstAndRest(segments);
    assert segments[0] in segments;
    if |segments| == 1 {
    } else {
      SplitJoin(segments[1..]);
      SplitPrepend(segments[0], Join(segments[1..]));
    }
  }

  /** Pushing a colon and a segment onto the text adds the segment at the end. */
  lemma {:induction false} SplitPush(path: string, segment: string)
    requires ':' !in segment
    ensures Split(path + [':'] + segment) == Split(path) + [segment]
    decreases |path|
  {
    match SplitOnce(path, ':')
    case None =>
      SplitOnceAt(path, ':', segment);
    case Some((first, more)) =>
      assert path + [':'] + segment == first + [':'] + (more + [':'] + segment);
      SplitOnceAt(first, ':', more + [':'] + segment);
      SplitPush(more, segment);
  }

  // ----- what is done to the segments -----

  /** The standard directories that are not there yet. */
  function Missing(standard: seq<string>, host: seq<string>): seq<string> {
    if standard == [] then []
    else (if standard[0] in host then [] else [standard[0]]) + Missing(standard[1..], host)
  }

  function Merge(host: seq<string>): seq<string> {
    host + Missing(STANDARD_PATH_DIRS, host)
  }

  predicate IsLocal(s: string) {
    s == LOCAL_BIN || s == LOCAL_SBIN
  }

  /** What one segment becomes. */
  function Expand(s: string): seq<string> {
    if IsLocal(s) then []
    else if s == USR_BIN then [LOCAL_BIN, USR_BIN]
    else if s == USR_SBIN then [LOCAL_SBIN, USR_SBIN]
    else [s]
  }

  function ExpandAll(segments: seq<string>): seq<string> {
    if segments == [] then [] else Expand(segments[0]) + ExpandAll(segments[1..])
  }

  function Prepended(dir: string, segments: seq<string>): seq<string> {
    if dir in segments then segments else [dir] + segments
  }

  /** An empty list of segments joins to the empty text, which is one empty segment. */
  function AsText(segments: seq<string>): seq<string> {
    if segments == [] then [""] else segments
  }

  function Reorder(segments: seq<string>): seq<string> {
    Prepended(LOCAL_SBIN, Prepended(LOCAL_BIN, AsText(ExpandAll(segments))))
  }

  // ----- the code, on text -----

  /** Pushes what one segment becomes. */
  method PushExpanded(reordered: seq<string>, segment: string) returns (r: seq<string>)
    ensures r == reordered + Expand(segment)
  {
    r := reordered;
    if segment == LOCAL_BIN || segment == LOCAL_SBIN {
    } else if segment == USR_BIN {
      r := r + [LOCAL_BIN];
      r := r + [USR_BIN];
    } else if segment == USR_SBIN {
      r := r + [LOCAL_SBIN];
      r := r + [USR_SBIN];
    } else {
      r := r + [segment];
    }
  }

  /** The first loop of the reordering, and the join after it. */
  method ExpandPath(path: string) returns (result: string)
    ensures Split(result) == AsText(ExpandAll(Split(path)))
  {
    var segments := Split(path);
    var reordered: seq<string> := [];
    var i := 0;
    while i < |segments|
      invariant i <= |segments|
      invariant reordered == ExpandAll(segments[..i])
    {
      ExpandSnoc(segments, i);
      reordered := PushExpanded(reordered, segments[i]);
      i := i + 1;
    }
    assert segments[..i] == segments;
    ExpandNoColons(segments);
    JoinedText(reordered);
    result := Join(reordered);
  }

  method ReorderFhsPath(path: string) returns (result: string)
    ensures Split(result) == Reorder(Split(path))
  {
    LocalNoColons();
    result := ExpandPath(path);
    result := PrependIfMissing(LOCAL_BIN, result);
    result := PrependIfMissing(LOCAL_SBIN, result);
  }

  method PrependIfMissing(dir: string, path: string) returns (result: string)
    requires ':' !in dir
    ensures Split(result) == Prepended(dir, Split(path))
  {
    if dir in Split(path) {
      result := path;
    } else {
      SplitPrepend(dir, path);
      result := dir + [':'] + path;
    }
  }

  lemma {:induction false} MergeNext(merged: string, host: seq<string>, dirs: seq<string>, i: nat)
    requires NoColons(dirs) && i < |dirs| && Split(merged) == host + Missing(dirs[..i], host)
    ensures Split(if dirs[i] in host then merged else merged + [':'] + dirs[i]) == host + Missing(dirs[..i + 1], host)
  {
    MissingSnoc(dirs, host, i);
    if dirs[i] in host {
      assert Missing(dirs[..i], host) + [] == Missing(dirs[..i], host);
    } else {
      SplitPush(merged, dirs[i]);
      ConcatAssoc(host, Missing(dirs[..i], host), [dirs[i]]);
    }
  }

  /** Appends every given directory that is not a segment of the host's path. */
  method MergeDirs(hostPath: string, dirs: seq<string>) returns (merged: string)
    requires NoColons(dirs)
    ensures Split(merged) == Split(hostPath) + Missing(dirs, Split(hostPath))
  {
    var host := Split(hostPath);
    merged := hostPath;
    var i := 0;
    while i < |dirs|
      invariant i <= |dirs|
      invariant Split(merged) == host + Missing(dirs[..i], host)
    {
      MergeNext(merged, host, dirs, i);
      if dirs[i] !in host {
        merged := merged + [':'];
        merged := merged + dirs[i];
      }
      i := i + 1;
    }
    assert dirs[..i] == dirs;
  }

  method BuildContainerPath(cleanPath: bool, hostPath: Option<string>, containerPath: string) returns (result: string)
    ensures result == ContainerPathFor(cleanPath, hostPath, containerPath)
  {
    if cleanPath {
      return Join(STANDARD_PATH_DIRS);
    }
    if hostPath.None? || hostPath.value == "" {
      return if containerPath == "" then Join(STANDARD_PATH_DIRS) else containerPath;
    }
    StandardNoColons();
    var merged := MergeDirs(hostPath.value, STANDARD_PATH_DIRS);
    result := ReorderFhsPath(merged);
    JoinSplit(result);
  }

  /** The value computed, case by case. */
  function ContainerPathFor(cleanPath: bool, hostPath: Option<string>, containerPath: string): string {
    if cleanPath then Join(STANDARD_PATH_DIRS)
    else if hostPath.None? || hostPath.value == "" then
      if containerPath == "" then Join(STANDARD_PATH_DIRS) else containerPath
    else Join(Reorder(Merge(Split(hostPath.value))))
  }

  lemma {:induction false} ExpandConcat(a: seq<string>, b: seq<string>)
    ensures ExpandAll(a + b) == ExpandAll(a) + ExpandAll(b)
  {
    if a == [] {
      assert a + b == b;
    } else {
      assert (a + b)[1..] == a[1..] + b;
      ExpandConcat(a[1..], b);
    }
  }

  lemma {:induction false} ExpandSnoc(segments: seq<string>, i: nat)
    requires i < |segments|
    ensures ExpandAll(segments[..i + 1]) == ExpandAll(segments[..i]) + Expand(segments[i])
  {
    assert segments[..i + 1] == segments[..i] + [segments[i]];
    ExpandConcat(segments[..i], [segments[i]]);
    assert ExpandAll([segments[i]]) == Expand(segments[i]) + ExpandAll([segments[i]][1..]);
  }

  lemma {:induction false} MissingSnoc(standard: seq<string>, host: seq<string>, i: nat)
    requires i < |standard|
    ensures Missing(standard[..i + 1], host)
         == Missing(standard[..i], host) + if standard[i] in host then [] else [standard[i]]
    decreases i
  {
    if i == 0 {
      assert standard[..1][1..] == [];
    } else {
      assert standard[..i][1..] == standard[1..][..i - 1];
      assert standard[..i + 1][1..] == standard[1..][..i];
      MissingSnoc(standard[1..], host, i - 1);
    }
  }

  lemma {:induction false} LocalNoColons()
    ensures ':' !in LOCAL_BIN && ':' !in LOCAL_SBIN && ':' !in USR_BIN && ':' !in USR_SBIN
  {
  }

  lemma {:induction false} StandardNoColons()
    ensures NoColons(STANDARD_PATH_DIRS)
  {
  }

  lemma {:induction false} ExpandNoColons(segments: seq<string>)
    requires NoColons(segments)
    ensures NoColons(ExpandAll(segments))
  {
    if segments == [] {
    } else {
      ExpandNoColons(segments[1..]);
    }
  }

  lemma {:induction false} JoinedText(segments: seq<string>)
    requires NoColons(segments)
    ensures Split(Join(segments)) == AsText(segments)
  {
    if segments != [] {
      SplitJoin(segments);
    }
  }

  // ----- properties -----

  lemma {:induction false} DirsDistinct()
    ensures LOCAL_BIN != LOCAL_SBIN && USR_BIN != USR_SBIN
    ensures !IsLocal(USR_BIN) && !IsLocal(USR_SBIN) && !IsLocal("") && !IsLocal("/sbin") && !IsLocal("/bin")
    ensures "" != USR_BIN && "" != USR_SBIN
  {
  }

  /** `dir` stands immediately after `local` wherever it occurs, and `local` occurs nowhere else. */
  ghost predicate Paired(local: string, dir: string, segments: seq<string>) {
    && (forall i :: 0 <= i < |segments| && segments[i] == dir ==> 0 < i && segments[i - 1] == local)
    && (forall i :: 0 <= i < |segments| && segments[i] == local ==> i + 1 < |segments| && segments[i + 1] == dir)
  }

  lemma {:induction false} PairedConcat(local: string, dir: string, a: seq<string>, b: seq<string>)
    requires Paired(local, dir, a) && Paired(local, dir, b)
    ensures Paired(local, dir, a + b)
  {
  }

  lemma {:induction false} ExpandPaired(s: string)
    ensures Paired(LOCAL_BIN, USR_BIN, Expand(s)) && Paired(LOCAL_SBIN, USR_SBIN, Expand(s))
  {
  }

  lemma {:induction false} ExpandAllPaired(segments: seq<string>)
    ensures Paired(LOCAL_BIN, USR_BIN, ExpandAll(segments)) && Paired(LOCAL_SBIN, USR_SBIN, ExpandAll(segments))
  {
    if segments == [] {
    } else {
      ExpandPaired(segments[0]);
      ExpandAllPaired(segments[1..]);
      PairedConcat(LOCAL_BIN, USR_BIN, Expand(segments[0]), ExpandAll(segments[1..]));
      PairedConcat(LOCAL_SBIN, USR_SBIN, Expand(segments[0]), ExpandAll(segments[1..]));
    }
  }

  /** Everything but the two local directories. */
  function Others(segments: seq<string>): seq<string> {
    if segments == [] then [] else (if IsLocal(segments[0]) then [] else [segments[0]]) + Others(segments[1..])
  }

  lemma {:induction false} OthersConcat(a: seq<string>, b: seq<string>)
    ensures Others(a + b) == Others(a) + Others(b)
  {
    if a == [] {
      assert a + b == b;
    } else {
      assert (a + b)[1..] == a[1..] + b;
      OthersConcat(a[1..], b);
    }
  }

  lemma {:induction false} ExpandOne(s: string)
    ensures Others(Expand(s)) == Others([s])
    ensures ExpandAll(Expand(s)) == Expand(s)
    ensures !IsLocal(s) ==> s in Expand(s)
  {
    DirsDistinct();
    var e := Expand(s);
    assert Others([s]) == (if IsLocal(s) then [] else [s]) + Others([s][1..]);
    if |e| == 1 {
      assert e[1..] == [];
    } else if |e| == 2 {
      assert e[1..] == [s] && e[1..][1..] == [];
      assert ExpandAll([s]) == Expand(s) + [];
    }
  }

  /** Reordering keeps all other segments, in order and as often as they occur, and doing it again changes nothing. */
  lemma {:induction false} ExpandAllKeeps(segments: seq<string>)
    ensures Others(ExpandAll(segments)) == Others(segments)
    ensures ExpandAll(ExpandAll(segments)) == ExpandAll(segments)
    ensures forall s :: s in segments && !IsLocal(s) ==> s in ExpandAll(segments)
  {
    if segments == [] {
    } else {
      var s, more := segments[0], segments[1..];
      ExpandOne(s);
      ExpandAllKeeps(more);
      OthersConcat(Expand(s), ExpandAll(more));
      OthersConcat([s], more);
      ExpandConcat(Expand(s), ExpandAll(more));
      assert segments == [s] + more;
    }
  }

  lemma {:induction false} MissingAdds(standard: seq<string>, host: seq<string>)
    ensures forall s :: s in standard ==> s in host + Missing(standard, host)
    ensures (forall s :: s in standard ==> s in host) ==> Missing(standard, host) == []
  {
    if standard == [] {
    } else {
      MissingAdds(standard[1..], host);
      assert standard == [standard[0]] + standard[1..];
    }
  }

  /** With every standard directory merged in, the local ones are never left over to be put in front. */
  lemma {:induction false} MergedReorder(host: seq<string>)
    ensures Reorder(Merge(host)) == ExpandAll(Merge(host))
    ensures forall s :: s in STANDARD_PATH_DIRS ==> s in Reorder(Merge(host))
  {
    var merged := Merge(host);
    MissingAdds(STANDARD_PATH_DIRS, host);
    ExpandAllKeeps(merged);
    ExpandAllPaired(merged);
    DirsDistinct();
    StandardMembers();
    PairPresent(LOCAL_BIN, USR_BIN, ExpandAll(merged));
    PairPresent(LOCAL_SBIN, USR_SBIN, ExpandAll(merged));
    StandardPresent(merged);
  }

  lemma {:induction false} PairPresent(local: string, dir: string, segments: seq<string>)
    requires Paired(local, dir, segments) && dir in segments
    ensures local in segments
  {
    var i :| 0 <= i < |segments| && segments[i] == dir;
    assert segments[i - 1] == local;
  }

  lemma {:induction false} StandardPresent(merged: seq<string>)
    requires forall s :: s in STANDARD_PATH_DIRS ==> s in merged
    requires LOCAL_BIN in ExpandAll(merged) && LOCAL_SBIN in ExpandAll(merged)
    ensures forall s :: s in STANDARD_PATH_DIRS ==> s in ExpandAll(merged)
  {
    ExpandAllKeeps(merged);
  }

  lemma {:induction false} StandardMembers()
    ensures USR_BIN in STANDARD_PATH_DIRS && USR_SBIN in STANDARD_PATH_DIRS
  {
  }

  /** The path of a box with a host path: complete, paired, and otherwise the host's own segments. */
  lemma {:induction false} HostPathResult(host: string, containerPath: string)
    requires host != ""
    ensures
      var result := Split(ContainerPathFor(false, Some(host), containerPath));
      && (forall s :: s in STANDARD_PATH_DIRS ==> s in result)
      && Paired(LOCAL_BIN, USR_BIN, result) && Paired(LOCAL_SBIN, USR_SBIN, result)
      && Others(result) == Others(Split(host)) + Others(Missing(STANDARD_PATH_DIRS, Split(host)))
  {
    var segments := Split(host);
    MergedReorder(segments);
    MergedText(segments);
    ExpandAllPaired(Merge(segments));
    ExpandAllKeeps(Merge(segments));
    OthersConcat(segments, Missing(STANDARD_PATH_DIRS, segments));
  }

  lemma {:induction false} MissingNoColons(standard: seq<string>, host: seq<string>)
    requires NoColons(standard)
    ensures NoColons(Missing(standard, host))
  {
    if standard == [] {
    } else {
      MissingNoColons(standard[1..], host);
    }
  }

  lemma {:induction false} MergedText(host: seq<string>)
    requires NoColons(host)
    ensures Reorder(Merge(host)) != [] && Split(Join(Reorder(Merge(host)))) == Reorder(Merge(host))
  {
    MergedReorder(host);
    StandardNoColons();
    StandardMembers();
    MissingNoColons(STANDARD_PATH_DIRS, host);
    ExpandNoColons(Merge(host));
    SplitJoin(Reorder(Merge(host)));
  }

  /** Building the path again from its own result changes nothing. */
  lemma {:induction false} PathIsFixedPoint(host: string, containerPath: string, again: string)
    requires host != ""
    ensures
      var result := ContainerPathFor(false, Some(host), containerPath);
      result != "" && ContainerPathFor(false, Some(result), again) == result
  {
    var segments := Split(host);
    var out := Reorder(Merge(segments));
    var result := ContainerPathFor(false, Some(host), containerPath);
    MergedText(segments);
    MergedReorder(segments);
    MissingAdds(STANDARD_PATH_DIRS, out);
    assert Merge(out) == out;
    ExpandAllKeeps(Merge(segments));
    MergedReorder(out);
    assert result != "" by {
      StandardMembers();
      NonemptyText(out);
    }
  }

  lemma {:induction false} NonemptyText(segments: seq<string>)
    requires NoColons(segments) && USR_BIN in segments && Split(Join(segments)) == segments
    ensures Join(segments) != ""
  {
  }

  /** Reordering any path twice is reordering it once. */
  lemma {:induction false} ReorderIdempotent(segments: seq<string>)
    ensures Reorder(Reorder(segments)) == Reorder(segments)
  {
    var core := AsText(ExpandAll(segments));
    ExpandAllKeeps(segments);
    DirsDistinct();
    ExpandOne("");
    assert [""][1..] == [];
    assert ExpandAll(core) == core;
    LocalsDropped(LOCAL_BIN, core);
    LocalsDropped(LOCAL_SBIN, Prepended(LOCAL_BIN, core));
  }

  lemma {:induction false} LocalsDropped(dir: string, segments: seq<string>)
    requires IsLocal(dir)
    ensures ExpandAll(Prepended(dir, segments)) == ExpandAll(segments)
  {
  }

  /** On a path of nothing but local directories, reordering alone would add an empty segment; on no other. */
  lemma {:induction false} ReorderKeepsOthersExactly(segments: seq<string>)
    ensures Others(Reorder(segments)) == Others(segments) <==> Others(segments) != []
    ensures Others(segments) == [] ==> Others(Reorder(segments)) == [""]
  {
    var core := AsText(ExpandAll(segments));
    ExpandAllKeeps(segments);
    PrependedOthers(LOCAL_BIN, core);
    PrependedOthers(LOCAL_SBIN, Prepended(LOCAL_BIN, core));
    DirsDistinct();
    assert Others([""]) == [""] + Others([""][1..]);
    if Others(segments) == [] && ExpandAll(segments) != [] {
      ExpandAllOthers(segments);
    }
  }

  lemma {:induction false} PrependedOthers(dir: string, segments: seq<string>)
    requires IsLocal(dir)
    ensures Others(Prepended(dir, segments)) == Others(segments)
  {
  }

  lemma {:induction false} ExpandAllOthers(segments: seq<string>)
    requires Others(segments) == []
    ensures ExpandAll(segments) == []
  {
    if segments == [] {
    } else {
      assert IsLocal(segments[0]);
      ExpandAllOthers(segments[1..]);
    }
  }

  // ----- the directories by name -----

  lemma {:induction false} StandardSpelled()
    ensures STANDARD_PATH_DIRS == ["/usr/local/sbin", "/usr/local/bin", "/usr/sbin", "/usr/bin", "/sbin", "/bin"]
  {
  }

  lemma {:induction false} JoinTwo(segments: seq<string>)
    requires |segments| >= 2
    ensures Join(segments) == segments[0] + ":" + Join(segments[1..])
  {
  }

  /** Asked for a clean path, or without any, a box gets the six standard directories; or else the container's own. */
  lemma {:induction false} WithoutHostPath(hostPath: Option<string>, containerPath: string)
    ensures
      var standard := Join(["/usr/local/sbin", "/usr/local/bin", "/usr/sbin", "/usr/bin", "/sbin", "/bin"]);
      && ContainerPathFor(true, hostPath, containerPath) == standard
      && (hostPath == None || hostPath == Some("") ==>
            ContainerPathFor(false, hostPath, containerPath) == if containerPath == "" then standard else containerPath)
  {
    StandardSpelled();
  }

  /** The result with a host path, in terms of the directories' names. */
  lemma {:induction false} HostPathSpelled(host: string, containerPath: string)
    requires host != ""
    ensures
      var result := Split(ContainerPathFor(false, Some(host), containerPath));
      && "/usr/local/sbin" in result && "/usr/local/bin" in result && "/usr/sbin" in result
      && "/usr/bin" in result && "/sbin" in result && "/bin" in result
      && Paired("/usr/local/bin", "/usr/bin", result) && Paired("/usr/local/sbin", "/usr/sbin", result)
  {
    HostPathResult(host, containerPath);
    var standard := STANDARD_PATH_DIRS;
    assert standard[0] in standard && standard[1] in standard && standard[2] in standard;
    assert standard[3] in standard && standard[4] in standard && standard[5] in standard;
  }

  /** Without their counterparts the local directories go to the front, `sbin` first. */
  lemma {:induction false} LocalsInFront(segments: seq<string>)
    requires "/usr/bin" !in segments && "/usr/sbin" !in segments
    ensures
      var kept := ExpandAll(segments);
      && "/usr/local/bin" !in kept && "/usr/local/sbin" !in kept
      && Reorder(segments) == ["/usr/local/sbin"] + (["/usr/local/bin"] + if kept == [] then [""] else kept)
  {
    DirsDistinct();
    NoLocals(segments);
  }

  lemma {:induction false} NoLocals(segments: seq<string>)
    requires USR_BIN !in segments && USR_SBIN !in segments
    ensures LOCAL_BIN !in ExpandAll(segments) && LOCAL_SBIN !in ExpandAll(segments)
  {
    if segments == [] {
    } else {
      FirstAndRest(segments);
      NoLocals(segments[1..]);
    }
  }
}
