/** A mount table in the order the mounts were made, with the visibility and busy rules of `umount`. */
module MountTable {
  import opened Seqs

  /** A path as its components. */
  type Path = seq<string>

  type Device = string

  datatype Source =
    | Loop(device: Device) | Overlay(lower: Path, upper: Path, work: Path) | Bind(from: Path) | Tmpfs | Other(name: string)

  datatype Mount = Mount(point: Path, source: Source)

  type Table = seq<Mount>

  /** The mount a path lookup of `p` ends on, if it is a mount point: a later mount at or above it hides it. */
  function Top(t: Table, p: Path): (r: Option<nat>)
    ensures r.Some? ==> r.value < |t| && t[r.value].point == p
  {
    if t == [] then None else
    var last := t[|t| - 1];
    if last.point == p then Some(|t| - 1)
    else if last.point <= p then None
    else Top(t[..|t| - 1], p)
  }

  /** Something has been mounted on or beneath mount `i` since. */
  predicate Busy(t: Table, i: nat)
    requires i < |t|
  {
    exists j :: i < j < |t| && t[i].point <= t[j].point
  }

  /** A plain unmount: refused for a path that is no visible mount point, or a busy one. */
  function Unmount(t: Table, p: Path): Table {
    match Top(t, p)
    case None => t
    case Some(i) => if Busy(t, i) then t else t[..i] + t[i + 1..]
  }

  /** The visible mounts strictly beneath `p`, which a recursive bind copies along. */
  function Beneath(t: Table, p: Path): (r: Table)
    ensures forall m :: m in r ==> p < m.point
  {
    if t == [] then [] else
    var last := t[|t| - 1];
    if last.point <= p then []
    else Beneath(t[..|t| - 1], p) + (if p < last.point then [last] else [])
  }

  /** Beneath a path lies every later mount strictly beneath it. */
  lemma {:induction false} BeneathNext(t: Table, m: Mount, p: Path)
    requires !(m.point <= p)
    ensures Beneath(t + [m], p) == Beneath(t, p) + if p < m.point then [m] else []
  {
  }

  /** What was there before a mount at the path or above it does not show any more. */
  lemma {:induction false} BeneathHidden(t: Table, m: Mount, p: Path)
    requires m.point <= p
    ensures Beneath(t + [m], p) == []
  {
  }

  /** The copies, at the same places beneath `to`. */
  function Moved(ms: Table, from: Path, to: Path): (r: Table)
    requires forall m :: m in ms ==> from < m.point
    ensures |r| == |ms|
    ensures forall i :: 0 <= i < |r| ==> to < r[i].point
    ensures forall i :: 0 <= i < |r| ==>
              r[i].source == ms[i].source && r[i].point[|to|..] == ms[i].point[|from|..]
  {
    if ms == [] then [] else
    assert ms[0] in ms;
    [Mount(to + ms[0].point[|from|..], ms[0].source)] + Moved(ms[1..], from, to)
  }

  /** A lookup of `p` ends on a mount of this source. */
  predicate Shows(t: Table, p: Path, source: Source) {
    Top(t, p).Some? && t[Top(t, p).value].source == source
  }

  lemma {:induction false} ShowsLast(t: Table, m: Mount)
    ensures Shows(t + [m], m.point, m.source)
  {
    TopSnoc(t, m, m.point);
  }

  /** Mounts elsewhere, or beneath, do not change what a lookup ends on. */
  lemma {:induction false} ShowsStill(t: Table, more: Table, p: Path, source: Source)
    requires Shows(t, p, source) && forall m :: m in more ==> !(m.point <= p)
    ensures Shows(t + more, p, source)
  {
    if more == [] {
      assert t + more == t;
    } else {
      var less, last := more[..|more| - 1], more[|more| - 1];
      LastAndRest(more);
      ShowsStill(t, less, p, source);
      ConcatAssoc(t, less, [last]);
      TopSnoc(t + less, last, p);
    }
  }

  predicate AllUnder(p: Path, t: Table) {
    forall m :: m in t ==> p < m.point
  }

  // ----- what lies above a mount does not see what was there before -----

  lemma {:induction false} TopAbove(base: Table, m: Mount, rest: Table, p: Path)
    requires AllUnder(m.point, rest) && m.point < p
    ensures Top(base + [m] + rest, p) == Shifted(Top(rest, p), |base| + 1)
    decreases |rest|
  {
    if rest == [] {
      assert base + [m] + rest == base + [m];
      TopSnoc(base, m, p);
    } else {
      var shorter, last := rest[..|rest| - 1], rest[|rest| - 1];
      LastAndRest(rest);
      TopAbove(base, m, shorter, p);
      TopOverSnoc(base + [m], shorter, last, p);
    }
  }

  function Shifted(at: Option<nat>, n: nat): Option<nat> {
    match at
    case Some(i) => Some(n + i)
    case None => None
  }

  lemma {:induction false} TopOverSnoc(head: Table, rest: Table, last: Mount, p: Path)
    requires Top(head + rest, p) == Shifted(Top(rest, p), |head|)
    ensures Top(head + (rest + [last]), p) == Shifted(Top(rest + [last], p), |head|)
  {
    ConcatAssoc(head, rest, [last]);
    TopSnoc(head + rest, last, p);
    TopSnoc(rest, last, p);
  }

  lemma {:induction false} TopSnoc(t: Table, m: Mount, p: Path)
    ensures Top(t + [m], p) == if m.point == p then Some(|t|) else if m.point <= p then None else Top(t, p)
  {
    assert (t + [m])[..|t|] == t;
  }

  lemma {:induction false} BusyAbove(base: Table, m: Mount, rest: Table, i: nat)
    requires i < |rest|
    ensures Busy(base + [m] + rest, |base| + 1 + i) <==> Busy(rest, i)
  {
    var head := base + [m];
    if Busy(rest, i) {
      BusyBehind(head, rest, i);
    }
    if Busy(head + rest, |head| + i) {
      BusyFront(head, rest, i);
    }
  }

  lemma {:induction false} BusyBehind(head: Table, rest: Table, i: nat)
    requires i < |rest| && Busy(rest, i)
    ensures Busy(head + rest, |head| + i)
  {
    var j :| i < j < |rest| && rest[i].point <= rest[j].point;
    var t := head + rest;
    assert t[|head| + i] == rest[i] && t[|head| + j] == rest[j];
  }

  lemma {:induction false} BusyFront(head: Table, rest: Table, i: nat)
    requires i < |rest| && Busy(head + rest, |head| + i)
    ensures Busy(rest, i)
  {
    var t := head + rest;
    var j :| |head| + i < j < |t| && t[|head| + i].point <= t[j].point;
    assert t[|head| + i] == rest[i] && t[j] == rest[j - |head|];
  }

  /** Unmounting beneath a mount leaves it and everything before it alone. */
  lemma {:induction false} UnmountAbove(base: Table, m: Mount, rest: Table, p: Path)
    requires AllUnder(m.point, rest) && m.point < p
    ensures Unmount(base + [m] + rest, p) == base + [m] + Unmount(rest, p)
  {
    TopAbove(base, m, rest, p);
    if Top(rest, p).Some? {
      BusyAbove(base, m, rest, Top(rest, p).value);
      UnmountOver(base + [m], rest, p);
    }
  }

  lemma {:induction false} UnmountOver(head: Table, rest: Table, p: Path)
    requires Top(rest, p).Some? && Top(head + rest, p) == Some(|head| + Top(rest, p).value)
    requires Busy(head + rest, |head| + Top(rest, p).value) <==> Busy(rest, Top(rest, p).value)
    ensures Unmount(head + rest, p) == head + Unmount(rest, p)
  {
    RemovedBehind(head, rest, Top(rest, p).value);
  }

  lemma {:induction false} TopOfBase(base: Table, m: Mount, rest: Table)
    requires AllUnder(m.point, rest)
    ensures Top(base + [m] + rest, m.point) == Some(|base|)
    decreases |rest|
  {
    var t := base + [m] + rest;
    if rest == [] {
      assert t[|t| - 1] == m;
    } else {
      assert t[|t| - 1] == rest[|rest| - 1] && rest[|rest| - 1] in rest;
      assert t[..|t| - 1] == base + [m] + rest[..|rest| - 1];
      TopOfBase(base, m, rest[..|rest| - 1]);
    }
  }

  /** The mount itself comes off exactly when nothing is left beneath it. */
  lemma {:induction false} UnmountBase(base: Table, m: Mount, rest: Table)
    requires AllUnder(m.point, rest)
    ensures Unmount(base + [m] + rest, m.point) == if rest == [] then base else base + [m] + rest
  {
  }

  /** A path that no mount is at or above is no mount point: unmounting it does nothing. */
  lemma {:induction false} UnmountNothing(t: Table, p: Path)
    requires forall m :: m in t ==> !(m.point <= p)
    ensures Top(t, p) == None && Unmount(t, p) == t
    decreases |t|
  {
  }

  lemma {:induction false} UnmountLast(t: Table, m: Mount)
    ensures Unmount(t + [m], m.point) == t
  {
  }

  /** A mount below others that are neither at nor above nor beneath it comes off. */
  lemma {:induction false} UnmountFirst(m: Mount, rest: Table)
    requires forall x :: x in rest ==> !(x.point <= m.point) && !(m.point <= x.point)
    ensures Unmount([m] + rest, m.point) == rest
  {
    TopFirst(m, rest);
    IdleFirst(m, rest);
    var t := [m] + rest;
    assert t[..0] + t[1..] == rest;
  }

  lemma {:induction false} IdleFirst(m: Mount, rest: Table)
    requires forall x :: x in rest ==> !(m.point <= x.point)
    ensures !Busy([m] + rest, 0)
  {
  }

  lemma {:induction false} TopFirst(m: Mount, rest: Table)
    requires forall x :: x in rest ==> !(x.point <= m.point)
    ensures Top([m] + rest, m.point) == Some(0)
    decreases |rest|
  {
    var t := [m] + rest;
    if rest == [] {
    } else {
      assert t[|t| - 1] == rest[|rest| - 1] && rest[|rest| - 1] in rest;
      assert t[..|t| - 1] == [m] + rest[..|rest| - 1];
      TopFirst(m, rest[..|rest| - 1]);
    }
  }
}
