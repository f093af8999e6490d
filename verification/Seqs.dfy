/** Facts about sequences shared by every component. */
module Seqs {

  datatype Option<+T> = None | Some(value: T) {
    predicate IsFailure() { None? }
    function PropagateFailure<U>(): Option<U>
      requires None?
    { None }
    function Extract(): T
      requires Some?
    { value }
    function GetOr(default: T): T {
      if Some? then value else default
    }
  }

  /** The concatenation of a sequence of sequences. */
  function Flatten<T>(ss: seq<seq<T>>): seq<T> {
    if ss == [] then [] else ss[0] + Flatten(ss[1..])
  }

  lemma {:induction false} FlattenConcat<T>(a: seq<seq<T>>, b: seq<seq<T>>)
    ensures Flatten(a + b) == Flatten(a) + Flatten(b)
  {
    if a == [] {
      assert a + b == b;
    } else {
      assert (a + b)[1..] == a[1..] + b;
      FlattenConcat(a[1..], b);
    }
  }

  lemma {:induction false} FlattenSnoc<T>(a: seq<seq<T>>, x: seq<T>)
    ensures Flatten(a + [x]) == Flatten(a) + x
  {
    FlattenConcat(a, [x]);
    assert Flatten([x]) == x + Flatten([x][1..]);
  }

  /** The first position of `x` in `s`, or `|s|` when it does not occur. */
  function IndexOf<T(==)>(s: seq<T>, x: T): (at: nat)
    ensures at <= |s|
    ensures x !in s[..at]
    ensures at < |s| ==> s[at] == x
    ensures at < |s| <==> x in s
  {
    if s == [] then 0
    else if s[0] == x then 0
    else
      var r := IndexOf(s[1..], x);
      assert s[..r + 1] == [s[0]] + s[1..][..r];
      r + 1
  }

  /** Splits `s` at the first `x`, as `split_once` does. */
  function SplitOnce<T(==)>(s: seq<T>, x: T): (r: Option<(seq<T>, seq<T>)>)
    ensures r.None? <==> x !in s
    ensures r.Some? ==> x !in r.value.0 && s == r.value.0 + [x] + r.value.1
  {
    var at := IndexOf(s, x);
    if at == |s| then None else Some((s[..at], s[at + 1..]))
  }

  lemma {:induction false} IndexOfAt<T>(a: seq<T>, x: T, b: seq<T>)
    requires x !in a
    ensures IndexOf(a + [x] + b, x) == |a|
  {
    if a == [] {
    } else {
      assert (a + [x] + b)[1..] == a[1..] + [x] + b;
      IndexOfAt(a[1..], x, b);
    }
  }

  lemma {:induction false} SplitOnceAt<T>(a: seq<T>, x: T, b: seq<T>)
    requires x !in a
    ensures SplitOnce(a + [x] + b, x) == Some((a, b))
  {
    var s := a + [x] + b;
    IndexOfAt(a, x, b);
    assert s[..|a|] == a;
    assert s[|a| + 1..] == b;
  }

  lemma {:induction false} ConcatAssoc<T>(a: seq<T>, b: seq<T>, c: seq<T>)
    ensures (a + b) + c == a + (b + c)
  {
  }

  lemma {:induction false} FirstAndRest<T>(a: seq<T>)
    requires a != []
    ensures a == [a[0]] + a[1..]
  {
  }

  lemma {:induction false} Around<T>(a: seq<T>, k: nat, x: T)
    requires k < |a|
    ensures a == a[..k] + ([a[k]] + a[k + 1..]) && a[k := x] == a[..k] + ([x] + a[k + 1..])
  {
  }

  lemma {:induction false} RemovedBehind<T>(a: seq<T>, b: seq<T>, i: nat)
    requires i < |b|
    ensures (a + b)[..|a| + i] + (a + b)[|a| + i + 1..] == a + (b[..i] + b[i + 1..])
  {
  }

  lemma {:induction false} LastAndRest<T>(a: seq<T>)
    requires a != []
    ensures a == a[..|a| - 1] + [a[|a| - 1]]
  {
  }
}
