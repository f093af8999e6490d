/** What cleaning a path and matching it against one pattern mean, said without their recursions. */
module IgnoreMeaning {
  import opened Seqs
  import opened ByteStrings
  import opened ContentDigest
  import opened DockerIgnore

  // ----- a path is where it leads -----

  function Slashed(cs: seq<Bytes>): Bytes {
    if cs == [] then [] else if |cs| == 1 then cs[0] else cs[0] + [47] + Slashed(cs[1..])
  }

  /** The components are what the slashes separate. */
  lemma {:induction false} ComponentsSlashed(path: Bytes)
    ensures Slashed(Components(path)) == path
    decreases |path|
  {
    match SplitOnce(path, SLASH)
    case None =>
    case Some((first, more)) =>
      ComponentsSlashed(more);
      assert ([first] + Components(more))[1..] == Components(more);
  }

  /** A place: so many directories up from the start, and from there down. */
  datatype Where = Where(up: nat, down: seq<Bytes>)

  function Go(rooted: bool, w: Where, c: Bytes): Where {
    if c == [] || c == [46] then w
    else if c == [46, 46] then
      if w.down != [] then w.(down := w.down[..|w.down| - 1]) else if rooted then w else w.(up := w.up + 1)
    else w.(down := w.down + [c])
  }

  function GoAll(rooted: bool, w: Where, cs: seq<Bytes>): Where
    decreases |cs|
  {
    if cs == [] then w else GoAll(rooted, Go(rooted, w, cs[0]), cs[1..])
  }

  function Ups(n: nat): seq<Bytes> {
    if n == 0 then [] else Ups(n - 1) + [[46, 46]]
  }

  function Spelled(w: Where): seq<Bytes> {
    Ups(w.up) + w.down
  }

  predicate Downward(w: Where) {
    forall c: Bytes :: c in w.down ==> c != [46, 46]
  }

  lemma {:induction false} PlaceGoes(rooted: bool, w: Where, c: Bytes)
    requires Downward(w) && (rooted ==> w.up == 0)
    ensures Place(rooted, Spelled(w), c) == Spelled(Go(rooted, w, c))
    ensures Downward(Go(rooted, w, c)) && (rooted ==> Go(rooted, w, c).up == 0)
  {
    StaysDownward(rooted, w, c);
    if c == PARENT_DIR {
      ParentGoes(rooted, w);
    } else {
      ConcatAssoc(Ups(w.up), w.down, [c]);
    }
  }

  lemma {:induction false} StaysDownward(rooted: bool, w: Where, c: Bytes)
    requires Downward(w)
    ensures Downward(Go(rooted, w, c))
  {
    if w.down != [] {
      assert forall d :: d in w.down[..|w.down| - 1] ==> d in w.down;
    }
  }

  lemma {:induction false} ParentGoes(rooted: bool, w: Where)
    requires Downward(w) && (rooted ==> w.up == 0)
    ensures Place(rooted, Spelled(w), PARENT_DIR) == Spelled(Go(rooted, w, PARENT_DIR))
  {
    var stack := Spelled(w);
    if w.down != [] {
      LastAndRest(w.down);
      ConcatAssoc(Ups(w.up), w.down[..|w.down| - 1], [w.down[|w.down| - 1]]);
      assert w.down[|w.down| - 1] in w.down;
      assert stack[|stack| - 1] == w.down[|w.down| - 1];
      assert stack[..|stack| - 1] == Ups(w.up) + w.down[..|w.down| - 1];
    } else {
      assert stack == Ups(w.up);
      if w.up > 0 {
        assert stack[|stack| - 1] == PARENT_DIR;
      }
      assert Ups(w.up + 1) + [] == Ups(w.up) + [PARENT_DIR];
    }
  }

  lemma {:induction false} PlaceAllGoes(rooted: bool, w: Where, cs: seq<Bytes>)
    requires Downward(w) && (rooted ==> w.up == 0)
    ensures PlaceAll(rooted, Spelled(w), cs) == Spelled(GoAll(rooted, w, cs))
    decreases |cs|
  {
    if cs == [] {
    } else {
      PlaceGoes(rooted, w, cs[0]);
      PlaceAllGoes(rooted, Go(rooted, w, cs[0]), cs[1..]);
    }
  }

  /** The cleaned path spells out where its components lead: up first, then down; from the root there is no way up. */
  lemma {:induction false} CleanLeadsThere(path: Bytes)
    ensures
      var rooted := path != [] && path[0] == 47;
      CleanSegments(path) == Spelled(GoAll(rooted, Where(0, []), Components(path)))
  {
    assert Spelled(Where(0, [])) == [];
    PlaceAllGoes(IsRooted(path), Where(0, []), Components(path));
  }

  // ----- a pattern matches what can be laid out along it -----

  /** The path cut into one piece for each segment: one fitting segment, or any number, but at least one at the end. */
  ghost predicate Laid(segments: seq<Segment>, path: seq<Bytes>, pieces: seq<seq<Bytes>>) {
    && |pieces| == |segments| && Flatten(pieces) == path
    && forall i :: 0 <= i < |segments| ==>
         match segments[i]
         case Glob(matches) => |pieces[i]| == 1 && matches(pieces[i][0])
         case DoubleStar => i == |segments| - 1 ==> pieces[i] != []
  }

  lemma {:induction false} LaidFirst(segments: seq<Segment>, path: seq<Bytes>, piece: seq<Bytes>, rest: seq<seq<Bytes>>)
    requires segments != [] && piece <= path && Laid(segments[1..], path[|piece|..], rest)
    requires match segments[0]
             case Glob(matches) => |piece| == 1 && matches(piece[0])
             case DoubleStar => |segments| == 1 ==> piece != []
    ensures Laid(segments, path, [piece] + rest)
  {
    var pieces := [piece] + rest;
    assert pieces[1..] == rest;
    assert piece + path[|piece|..] == path;
    forall i | 0 < i < |segments|
      ensures pieces[i] == rest[i - 1] && segments[i] == segments[1..][i - 1]
    {
    }
  }

  lemma {:induction false} LayOut(segments: seq<Segment>, path: seq<Bytes>) returns (pieces: seq<seq<Bytes>>)
    requires MatchesSegments(segments, path)
    ensures Laid(segments, path, pieces)
    decreases |segments|
  {
    if segments == [] {
      pieces := [];
    } else {
      var n := 1;
      if segments[0].DoubleStar? {
        if |segments| == 1 {
          n := |path|;
          assert path[n..] == [];
        } else {
          n :| 0 <= n <= |path| && MatchesSegments(segments[1..], path[n..]);
        }
      }
      var rest := LayOut(segments[1..], path[n..]);
      LaidFirst(segments, path, path[..n], rest);
      pieces := [path[..n]] + rest;
    }
  }

  lemma {:induction false} LaidMatches(segments: seq<Segment>, path: seq<Bytes>, pieces: seq<seq<Bytes>>)
    requires Laid(segments, path, pieces)
    ensures MatchesSegments(segments, path)
    decreases |segments|
  {
    if segments == [] {
    } else {
      var n := |pieces[0]|;
      assert path == pieces[0] + Flatten(pieces[1..]);
      assert path[n..] == Flatten(pieces[1..]) && path[..n] == pieces[0];
      forall i | 0 <= i < |segments[1..]|
        ensures segments[1..][i] == segments[i + 1] && pieces[1..][i] == pieces[i + 1]
      {
      }
      assert Laid(segments[1..], path[n..], pieces[1..]);
      LaidMatches(segments[1..], path[n..], pieces[1..]);
      if |segments| == 1 {
        assert pieces[1..] == [];
      }
    }
  }

  /** A pattern matches exactly the paths that can be laid out along it. */
  lemma {:induction false} MatchesExactly(segments: seq<Segment>, path: seq<Bytes>)
    ensures MatchesSegments(segments, path) <==> exists pieces :: Laid(segments, path, pieces)
  {
    if MatchesSegments(segments, path) {
      var pieces := LayOut(segments, path);
    }
    if pieces :| Laid(segments, path, pieces) {
      LaidMatches(segments, path, pieces);
    }
  }

  /** And it is tried on the path and on every directory the path is in, down to none at all. */
  lemma {:induction false} ParentsTried(pattern: Pattern, path: seq<Bytes>)
    ensures MatchesOrParent(pattern, path)
       <==> exists start, more, pieces :: start + more == path && Laid(pattern.segments, start, pieces)
  {
    if MatchesOrParent(pattern, path) {
      var k :| 0 <= k <= |path| && MatchesSegments(pattern.segments, path[..k]);
      var pieces := LayOut(pattern.segments, path[..k]);
      assert path[..k] + path[k..] == path;
    }
    if start, more, pieces :| start + more == path && Laid(pattern.segments, start, pieces) {
      LaidMatches(pattern.segments, start, pieces);
      assert path[..|start|] == start;
    }
  }
}
