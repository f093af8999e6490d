/** `.dockerignore`: which paths a compiled list of patterns ignores, and what is ignored along with them. */
module DockerIgnore {
  import opened Seqs
  import opened ByteStrings
  import opened ContentDigest

  // ----- cleaning a path -----

  /** What stands between the slashes. */
  function Components(path: Bytes): (r: seq<Bytes>)
    ensures r != [] && forall c :: c in r ==> SLASH !in c
    decreases |path|
  {
    match SplitOnce(path, SLASH)
    case None => [path]
    case Some((first, more)) => [first] + Components(more)
  }

  predicate IsRooted(path: Bytes) {
    path != [] && path[0] == SLASH
  }

  /** One more component: an empty one and `.` say nothing, `..` takes the last real one back if there is one. */
  function Place(rooted: bool, stack: seq<Bytes>, c: Bytes): seq<Bytes> {
    if c == [] || c == CURRENT_DIR then stack
    else if c != PARENT_DIR then stack + [c]
    else if stack != [] && stack[|stack| - 1] != PARENT_DIR then stack[..|stack| - 1]
    else if rooted then stack
    else stack + [PARENT_DIR]
  }

  function PlaceAll(rooted: bool, stack: seq<Bytes>, cs: seq<Bytes>): seq<Bytes>
    decreases |cs|
  {
    if cs == [] then stack else PlaceAll(rooted, Place(rooted, stack, cs[0]), cs[1..])
  }

  function CleanSegments(path: Bytes): seq<Bytes> {
    PlaceAll(IsRooted(path), [], Components(path))
  }

  /** A path that is nothing but the root, however written. */
  predicate RootLabel(path: Bytes) {
    IsRooted(path) && CleanSegments(path) == []
  }

  /** What is matched against the patterns; a lone `/` splits into two empty segments. */
  function PathSegments(path: Bytes): seq<Bytes> {
    if RootLabel(path) then [[], []] else CleanSegments(path)
  }

  // ----- matching -----

  /** A pattern segment: `**`, or one that is matched against a single path segment. */
  datatype Segment = DoubleStar | Glob(matches: Bytes -> bool)

  datatype Pattern = Pattern(segments: seq<Segment>, negated: bool)

  /** Every segment is used up on both sides; a `**` at the end takes at least one. */
  predicate MatchesSegments(segments: seq<Segment>, path: seq<Bytes>)
    decreases |segments|
  {
    if segments == [] then path == []
    else match segments[0]
         case DoubleStar =>
           if |segments| == 1 then path != []
           else exists i :: 0 <= i <= |path| && MatchesSegments(segments[1..], path[i..])
         case Glob(matches) =>
           path != [] && matches(path[0]) && MatchesSegments(segments[1..], path[1..])
  }

  /** The pattern matches the path or one of the directories it is in. */
  predicate MatchesOrParent(pattern: Pattern, path: seq<Bytes>) {
    exists k :: 0 <= k <= |path| && MatchesSegments(pattern.segments, path[..k])
  }

  /** Later patterns override earlier ones, each only in its own direction. */
  function Matched(patterns: seq<Pattern>, path: seq<Bytes>, soFar: bool): bool
    decreases |patterns|
  {
    if patterns == [] then soFar else
    var first := patterns[0];
    var next := if first.negated == soFar && MatchesOrParent(first, path) then !first.negated else soFar;
    Matched(patterns[1..], path, next)
  }

  function IsIgnored(patterns: seq<Pattern>, path: Bytes): bool {
    Matched(patterns, PathSegments(path), false)
  }

  predicate HasNegation(patterns: seq<Pattern>) {
    exists i :: 0 <= i < |patterns| && patterns[i].negated
  }

  function Compiled(patterns: seq<Pattern>): Ignore {
    Ignore(path => IsIgnored(patterns, path), HasNegation(patterns))
  }

  // ----- what lies under an ignored path -----

  lemma {:induction false} ComponentsBelow(path: Bytes, name: Bytes)
    requires SLASH !in name
    ensures Components(ChildPath(path, name)) == Components(path) + [name]
    decreases |path|
  {
    match SplitOnce(path, SLASH)
    case None =>
      SplitOnceAt(path, SLASH, name);
    case Some((first, more)) =>
      ConcatAssoc(first + [SLASH], more, [SLASH]);
      ConcatAssoc(first + [SLASH], more + [SLASH], name);
      SplitOnceAt(first, SLASH, ChildPath(more, name));
      ComponentsBelow(more, name);
      ConcatAssoc([first], Components(more), [name]);
  }

  lemma {:induction false} PlaceLast(rooted: bool, stack: seq<Bytes>, cs: seq<Bytes>, c: Bytes)
    ensures PlaceAll(rooted, stack, cs + [c]) == Place(rooted, PlaceAll(rooted, stack, cs), c)
    decreases |cs|
  {
    if cs == [] {
      assert [c][1..] == [];
    } else {
      assert (cs + [c])[1..] == cs[1..] + [c];
      PlaceLast(rooted, Place(rooted, stack, cs[0]), cs[1..], c);
    }
  }

  /** A real name is one more segment below every path but the bare root. */
  lemma {:induction false} SegmentsBelow(path: Bytes, name: Bytes)
    requires RealName(name)
    ensures !RootLabel(ChildPath(path, name))
    ensures PathSegments(ChildPath(path, name)) == (if RootLabel(path) then [] else PathSegments(path)) + [name]
  {
    ComponentsBelow(path, name);
    PlaceLast(IsRooted(ChildPath(path, name)), [], Components(path), name);
    if path == [] {
      assert Components(path) == [path] && [path][1..] == [];
    } else {
      assert ChildPath(path, name)[0] == path[0];
    }
  }

  lemma {:induction false} ParentMatches(pattern: Pattern, path: seq<Bytes>, name: Bytes)
    requires MatchesOrParent(pattern, path)
    ensures MatchesOrParent(pattern, path + [name])
  {
    var k :| 0 <= k <= |path| && MatchesSegments(pattern.segments, path[..k]);
    assert (path + [name])[..k] == path[..k];
  }

  lemma {:induction false} MatchedBelow(patterns: seq<Pattern>, path: seq<Bytes>, name: Bytes, soFar: bool, below: bool)
    requires !HasNegation(patterns) && (soFar ==> below) && Matched(patterns, path, soFar)
    ensures Matched(patterns, path + [name], below)
    decreases |patterns|
  {
    if patterns == [] {
    } else {
      var first, rest := patterns[0], patterns[1..];
      assert !first.negated;
      assert forall i :: 0 <= i < |rest| ==> rest[i] == patterns[i + 1];
      if MatchesOrParent(first, path) {
        ParentMatches(first, path, name);
      }
      MatchedBelow(rest, path, name, soFar || MatchesOrParent(first, path),
                   below || MatchesOrParent(first, path + [name]));
    }
  }

  /**
    * Without a negated pattern, whatever a tree can hold under an ignored path other than the bare root is
    * ignored too.
    */
  ghost predicate Inherited(ignore: Ignore) {
    !ignore.hasNegation ==>
      forall p, n :: !RootLabel(p) && RealName(n) && ignore.ignored(p) ==> ignore.ignored(ChildPath(p, n))
  }

  lemma {:induction false} CompiledInherits(patterns: seq<Pattern>)
    ensures Inherited(Compiled(patterns))
  {
    if !HasNegation(patterns) {
      forall p, n | !RootLabel(p) && RealName(n) && IsIgnored(patterns, p)
        ensures IsIgnored(patterns, ChildPath(p, n))
      {
        SegmentsBelow(p, n);
        MatchedBelow(patterns, PathSegments(p), n, false, false);
      }
    }
  }

  lemma {:induction false} SlashIsRoot()
    ensures RootLabel([SLASH])
  {
    var root, none: Bytes, cs: seq<Bytes> := [SLASH], [], [[], []];
    assert root == none + [SLASH] + none;
    SplitOnceAt(none, SLASH, none);
    assert Components(none) == [none];
    assert Components(root) == cs;
    assert cs[1..] == [none] && [none][1..] == [];
    assert PlaceAll(true, [], [none]) == [];
  }

  /** The pattern `/`, which is two empty segments. */
  function SlashPattern(): Pattern {
    var empty := Glob((segment: Bytes) => segment == []);
    Pattern([empty, empty], false)
  }

  /** It ignores the bare root and nothing beneath it. */
  lemma {:induction false} RootAlone(name: Bytes)
    requires RealName(name)
    ensures
      var ignore := Compiled([SlashPattern()]);
      !ignore.hasNegation && RootLabel([SLASH]) && ignore.ignored([SLASH]) && !ignore.ignored(ChildPath([SLASH], name))
  {
    SlashIsRoot();
    SegmentsBelow([SLASH], name);
    SlashMatches(name);
    assert [SlashPattern()][1..] == [];
    assert [] + [name] == [name];
  }

  lemma {:induction false} SlashMatches(name: Bytes)
    requires name != []
    ensures MatchesOrParent(SlashPattern(), [[], []])
    ensures !MatchesOrParent(SlashPattern(), [name])
  {
    var segments, path: seq<Bytes> := SlashPattern().segments, [[], []];
    assert path[..2] == path && path[1..] == [[]] && path[1..][1..] == [];
    assert segments[1..][1..] == [];
    assert MatchesSegments(segments[1..], path[1..]);
    assert MatchesSegments(segments, path[..2]);
    assert [name][..0] == [] && [name][..1] == [name];
  }

  // ----- what a list of patterns means -----

  /**
    * A path is ignored exactly if some plain pattern matches it or a directory it is in, and no negated pattern that
    * comes later does.
    */
  lemma {:induction false} IgnoredExactly(patterns: seq<Pattern>, path: Bytes)
    ensures
      var segments := PathSegments(path);
      IsIgnored(patterns, path)
      <==> exists i :: 0 <= i < |patterns| && !patterns[i].negated && MatchesOrParent(patterns[i], segments)
                       && forall j :: i < j < |patterns| && patterns[j].negated ==>
                            !MatchesOrParent(patterns[j], segments)
  {
    var segments := PathSegments(path);
    MatchedExactly(patterns, segments, false);
    forall i | 0 <= i < |patterns|
      ensures Decides(patterns, segments, i)
         <==> !patterns[i].negated && MatchesOrParent(patterns[i], segments)
              && forall j :: i < j < |patterns| && patterns[j].negated ==> !MatchesOrParent(patterns[j], segments)
    {
    }
  }

  /** The last plain pattern that matches is followed by no negated one that does. */
  ghost predicate Decides(patterns: seq<Pattern>, segments: seq<Bytes>, i: int) {
    && (0 <= i ==> i < |patterns| && !patterns[i].negated && MatchesOrParent(patterns[i], segments))
    && forall j :: i < j < |patterns| && 0 <= j && patterns[j].negated ==> !MatchesOrParent(patterns[j], segments)
  }

  lemma {:induction false} MatchedExactly(patterns: seq<Pattern>, segments: seq<Bytes>, soFar: bool)
    ensures Matched(patterns, segments, soFar)
       <==> (soFar && Decides(patterns, segments, -1)) || exists i: nat :: Decides(patterns, segments, i)
    decreases |patterns|
  {
    if patterns == [] {
    } else {
      var first, rest := patterns[0], patterns[1..];
      var next := if first.negated == soFar && MatchesOrParent(first, segments) then !first.negated else soFar;
      MatchedExactly(rest, segments, next);
      forall i: int | -1 <= i
        ensures Decides(rest, segments, i) && 0 <= i <==> 1 <= i + 1 && Decides(patterns, segments, i + 1)
      {
        DecidesLater(patterns, segments, i);
      }
      if i: nat :| Decides(rest, segments, i) {
        assert Decides(patterns, segments, i + 1);
      }
      if i: nat :| Decides(patterns, segments, i) {
        assert i > 0 ==> Decides(rest, segments, i - 1);
      }
      FirstDecides(patterns, segments);
    }
  }

  lemma {:induction false} DecidesLater(patterns: seq<Pattern>, segments: seq<Bytes>, i: int)
    requires patterns != [] && -1 <= i
    ensures 0 <= i ==> (Decides(patterns[1..], segments, i) <==> Decides(patterns, segments, i + 1))
  {
    var rest := patterns[1..];
    assert forall j :: 0 <= j < |rest| ==> rest[j] == patterns[j + 1];
    if 0 <= i && Decides(patterns, segments, i + 1) {
      forall j | i < j < |rest| && rest[j].negated
        ensures !MatchesOrParent(rest[j], segments)
      {
        assert rest[j] == patterns[j + 1];
      }
    }
    if 0 <= i && Decides(rest, segments, i) {
      forall j | i + 1 < j < |patterns| && patterns[j].negated
        ensures !MatchesOrParent(patterns[j], segments)
      {
        assert patterns[j] == rest[j - 1];
      }
    }
  }

  lemma {:induction false} FirstDecides(patterns: seq<Pattern>, segments: seq<Bytes>)
    requires patterns != []
    ensures Decides(patterns, segments, 0)
       <==> !patterns[0].negated && MatchesOrParent(patterns[0], segments) && Decides(patterns[1..], segments, -1)
    ensures Decides(patterns, segments, -1)
       <==> (patterns[0].negated ==> !MatchesOrParent(patterns[0], segments)) && Decides(patterns[1..], segments, -1)
  {
    var rest := patterns[1..];
    assert forall j :: 0 <= j < |rest| ==> rest[j] == patterns[j + 1];
    assert forall j :: 0 < j < |patterns| ==> patterns[j] == rest[j - 1];
  }
}
