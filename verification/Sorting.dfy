/** Sorting by a strict order, and why the result depends only on what is sorted. */
module Sorting {
  import opened ByteStrings
  import opened Seqs

  ghost predicate StrictOrder<T(!new)>(less: (T, T) -> bool) {
    && (forall a :: !less(a, a))
    && (forall a, b, c :: less(a, b) && less(b, c) ==> less(a, c))
  }

  /** Any two different members can be compared. */
  ghost predicate Comparable<T>(less: (T, T) -> bool, s: seq<T>) {
    forall i, j :: 0 <= i < j < |s| ==> less(s[i], s[j]) || less(s[j], s[i])
  }

  ghost predicate Ascending<T>(less: (T, T) -> bool, s: seq<T>) {
    forall i, j :: 0 <= i < j < |s| ==> less(s[i], s[j])
  }

  function Insert<T>(less: (T, T) -> bool, x: T, s: seq<T>): (r: seq<T>)
    ensures multiset(r) == multiset(s) + multiset{x}
    ensures |r| == |s| + 1
  {
    if s == [] then [x]
    else if less(s[0], x) then
      assert s == [s[0]] + s[1..];
      [s[0]] + Insert(less, x, s[1..])
    else [x] + s
  }

  /** Insertion sort: a permutation of its argument. */
  function Sort<T>(less: (T, T) -> bool, s: seq<T>): (r: seq<T>)
    ensures multiset(r) == multiset(s)
    ensures |r| == |s|
  {
    if s == [] then []
    else
      assert s == [s[0]] + s[1..];
      Insert(less, s[0], Sort(less, s[1..]))
  }

  lemma {:induction false} InMultiset<T>(a: seq<T>, b: seq<T>, x: T)
    requires multiset(a) == multiset(b)
    ensures x in a <==> x in b
  {
    assert x in a <==> x in multiset(a);
    assert x in b <==> x in multiset(b);
  }

  lemma {:induction false} InsertAscending<T(!new)>(less: (T, T) -> bool, x: T, s: seq<T>)
    requires StrictOrder(less) && Ascending(less, s)
    requires forall y :: y in s ==> less(x, y) || less(y, x)
    ensures Ascending(less, Insert(less, x, s))
  {
    if s == [] {
    } else if less(s[0], x) {
      InsertAscending(less, x, s[1..]);
      var rest := Insert(less, x, s[1..]);
      forall i | 0 <= i < |rest|
        ensures less(s[0], rest[i])
      {
        assert rest[i] in multiset(rest);
        assert rest[i] in s[1..] || rest[i] == x;
      }
    } else {
      assert s[0] in s;
      assert forall i :: 0 <= i < |s| ==> less(x, s[i]);
    }
  }

  lemma {:induction false} SortAscending<T(!new)>(less: (T, T) -> bool, s: seq<T>)
    requires StrictOrder(less) && Comparable(less, s)
    ensures Ascending(less, Sort(less, s))
  {
    if s == [] {
    } else {
      var rest := Sort(less, s[1..]);
      SortAscending(less, s[1..]);
      forall y | y in rest
        ensures less(s[0], y) || less(y, s[0])
      {
        InMultiset(rest, s[1..], y);
        var j :| 0 <= j < |s[1..]| && s[1..][j] == y;
        assert s[j + 1] == y;
      }
      InsertAscending(less, s[0], rest);
    }
  }

  lemma {:induction false} FirstIn<T>(s: seq<T>)
    requires s != []
    ensures s[0] in s
  {
  }

  /** Two ascending arrangements of the same members are the same. */
  lemma {:induction false} AscendingUnique<T(!new)>(less: (T, T) -> bool, a: seq<T>, b: seq<T>)
    requires StrictOrder(less) && Ascending(less, a) && Ascending(less, b)
    requires forall x :: x in a <==> x in b
    ensures a == b
    decreases |a|
  {
    if a == [] {
      if b != [] {
        FirstIn(b);
      }
    } else {
      assert a[0] in a && a[0] in b && b != [] && b[0] in b && b[0] in a;
      var i :| 0 <= i < |b| && b[i] == a[0];
      var j :| 0 <= j < |a| && a[j] == b[0];
      assert a[0] == b[0];
      forall x
        ensures x in a[1..] <==> x in b[1..]
      {
        if x in a[1..] {
          var k :| 0 <= k < |a[1..]| && a[1..][k] == x;
          assert less(a[0], a[k + 1]);
          assert x in b;
        }
        if x in b[1..] {
          var k :| 0 <= k < |b[1..]| && b[1..][k] == x;
          assert less(b[0], b[k + 1]);
          assert x in a;
        }
      }
      AscendingUnique(less, a[1..], b[1..]);
      assert a == [a[0]] + a[1..] && b == [b[0]] + b[1..];
    }
  }

  /** The order in which comparable members arrive does not matter. */
  lemma {:induction false} SortOrderIrrelevant<T(!new)>(less: (T, T) -> bool, a: seq<T>, b: seq<T>)
    requires StrictOrder(less) && Comparable(less, a) && Comparable(less, b) && (forall x :: x in a <==> x in b)
    ensures Sort(less, a) == Sort(less, b)
  {
    SortAscending(less, a);
    SortAscending(less, b);
    forall x
      ensures x in Sort(less, a) <==> x in Sort(less, b)
    {
      InMultiset(Sort(less, a), a, x);
      InMultiset(Sort(less, b), b, x);
    }
    AscendingUnique(less, Sort(less, a), Sort(less, b));
  }

  // ----- members that cannot be told apart -----

  /** Any two members are the same or can be compared. */
  ghost predicate ComparableOrSame<T>(less: (T, T) -> bool, s: seq<T>) {
    forall x, y :: x in s && y in s ==> x == y || less(x, y) || less(y, x)
  }

  lemma {:induction false} InsertCommutes<T(!new)>(less: (T, T) -> bool, x: T, y: T, s: seq<T>)
    requires StrictOrder(less) && less(x, y)
    ensures Insert(less, x, Insert(less, y, s)) == Insert(less, y, Insert(less, x, s))
  {
    if s == [] || !less(s[0], x) {
      InsertFirst(less, x, y, s);
    } else {
      var h, rest := s[0], s[1..];
      InsertCommutes(less, x, y, rest);
      assert less(h, y);
      InsertPast(less, x, h, Insert(less, y, rest));
      InsertPast(less, y, h, Insert(less, x, rest));
    }
  }

  lemma {:induction false} InsertPast<T(!new)>(less: (T, T) -> bool, x: T, h: T, rest: seq<T>)
    requires less(h, x)
    ensures Insert(less, x, [h] + rest) == [h] + Insert(less, x, rest)
  {
    assert ([h] + rest)[1..] == rest;
  }

  lemma {:induction false} InsertFirst<T(!new)>(less: (T, T) -> bool, x: T, y: T, s: seq<T>)
    requires StrictOrder(less) && less(x, y) && (s == [] || !less(s[0], x))
    ensures Insert(less, x, Insert(less, y, s)) == Insert(less, y, Insert(less, x, s))
  {
    assert Insert(less, x, s) == [x] + s;
    InsertPast(less, y, x, s);
    assert !less(y, x);
    assert Insert(less, x, Insert(less, y, s)) == [x] + Insert(less, y, s);
  }

  lemma {:induction false} InsertSwaps<T(!new)>(less: (T, T) -> bool, x: T, y: T, s: seq<T>)
    requires StrictOrder(less) && (x == y || less(x, y) || less(y, x))
    ensures Insert(less, x, Insert(less, y, s)) == Insert(less, y, Insert(less, x, s))
  {
    if less(x, y) {
      InsertCommutes(less, x, y, s);
    } else if less(y, x) {
      InsertCommutes(less, y, x, s);
    }
  }

  /** A member anywhere in the list might as well come first. */
  lemma {:induction false} SortMoves<T(!new)>(less: (T, T) -> bool, before: seq<T>, x: T, after: seq<T>)
    requires StrictOrder(less) && forall y :: y in before ==> x == y || less(x, y) || less(y, x)
    ensures Sort(less, before + ([x] + after)) == Insert(less, x, Sort(less, before + after))
  {
    if before == [] {
      assert before + ([x] + after) == [x] + after && before + after == after;
      assert ([x] + after)[1..] == after;
    } else {
      var first, more := before[0], before[1..];
      assert (before + ([x] + after))[1..] == more + ([x] + after) && (before + after)[1..] == more + after;
      SortMoves(less, more, x, after);
      InsertSwaps(less, first, x, Sort(less, more + after));
    }
  }

  lemma {:induction false} TakeOut<T>(a: seq<T>, b: seq<T>, j: nat)
    requires a != [] && j < |b| && a[0] == b[j] && multiset(a) == multiset(b)
    ensures multiset(a[1..]) == multiset(b[..j] + b[j + 1..])
  {
    assert a == [a[0]] + a[1..];
    assert multiset(a) == multiset{a[0]} + multiset(a[1..]);
    assert b == b[..j] + ([b[j]] + b[j + 1..]);
    assert multiset(b) == multiset(b[..j]) + (multiset{b[j]} + multiset(b[j + 1..]));
    assert multiset(a[1..]) == multiset(a) - multiset{a[0]};
    assert multiset(b[..j] + b[j + 1..]) == multiset(b) - multiset{b[j]};
  }

  /** The order in which members arrive does not matter if any two are the same or can be compared. */
  lemma {:induction false} SortPermuted<T(!new)>(less: (T, T) -> bool, a: seq<T>, b: seq<T>)
    requires StrictOrder(less) && ComparableOrSame(less, a) && multiset(a) == multiset(b)
    ensures Sort(less, a) == Sort(less, b)
    decreases |a|
  {
    if a == [] {
      assert |multiset(b)| == 0;
      assert b == [];
    } else {
      var x, rest := a[0], a[1..];
      InMultiset(a, b, x);
      var j :| 0 <= j < |b| && b[j] == x;
      var before, after := b[..j], b[j + 1..];
      TakeOut(a, b, j);
      assert b == before + ([x] + after);
      SortPermuted(less, rest, before + after);
      forall y | y in before
        ensures x == y || less(x, y) || less(y, x)
      {
        InMultiset(a, b, y);
      }
      SortMoves(less, before, x, after);
    }
  }

  /** The sort is stable: members that cannot be told apart keep their order, so theirs matters. */
  lemma {:induction false} InsertKeepsOrder<T(!new)>(less: (T, T) -> bool, x: T, y: T, s: seq<T>)
    requires x != y && !less(x, y) && !less(y, x) && forall z :: less(z, x) <==> less(z, y)
    ensures Insert(less, x, Insert(less, y, s)) != Insert(less, y, Insert(less, x, s))
  {
    if s == [] || !less(s[0], x) {
      assert Insert(less, x, Insert(less, y, s))[0] == x && Insert(less, y, Insert(less, x, s))[0] == y;
    } else {
      var h, rest := s[0], s[1..];
      InsertKeepsOrder(less, x, y, rest);
      var xs, ys := Insert(less, x, rest), Insert(less, y, rest);
      assert ([h] + ys)[1..] == ys && ([h] + xs)[1..] == xs;
      assert ([h] + Insert(less, x, ys))[1..] != ([h] + Insert(less, y, xs))[1..];
    }
  }

  // ----- byte strings in lexicographic order -----

  predicate BytesLess(a: Bytes, b: Bytes) {
    b != [] && (a == [] || a[0] < b[0] || (a[0] == b[0] && BytesLess(a[1..], b[1..])))
  }

  /** What the order means: a proper prefix comes first, and otherwise the smaller byte where two texts first differ. */
  lemma {:induction false} BytesLessMeans(a: Bytes, b: Bytes)
    ensures BytesLess(a, b)
       <==> a < b || exists k :: 0 <= k < |a| && k < |b| && a[..k] == b[..k] && a[k] < b[k]
  {
    if a == [] || b == [] {
    } else if a[0] == b[0] {
      BytesLessMeans(a[1..], b[1..]);
      FirstAndRest(a);
      FirstAndRest(b);
      if k :| 0 <= k < |a[1..]| && k < |b[1..]| && a[1..][..k] == b[1..][..k] && a[1..][k] < b[1..][k] {
        assert a[..k + 1] == [a[0]] + a[1..][..k] && b[..k + 1] == [b[0]] + b[1..][..k];
        assert a[k + 1] < b[k + 1];
      }
      if k :| 0 <= k < |a| && k < |b| && a[..k] == b[..k] && a[k] < b[k] {
        assert k > 0;
        assert a[1..][..k - 1] == a[..k][1..] && b[1..][..k - 1] == b[..k][1..];
        assert a[1..][k - 1] < b[1..][k - 1];
      }
    } else {
      forall k | 0 < k <= |a| && k <= |b|
        ensures a[..k] != b[..k]
      {
        assert a[..k][0] == a[0] && b[..k][0] == b[0];
      }
      assert a[..0] == b[..0];
    }
  }

  lemma {:induction false} BytesLessIrreflexive(a: Bytes)
    ensures !BytesLess(a, a)
  {
    if a == [] {
    } else {
      BytesLessIrreflexive(a[1..]);
    }
  }

  lemma {:induction false} BytesLessTransitive(a: Bytes, b: Bytes, c: Bytes)
    requires BytesLess(a, b) && BytesLess(b, c)
    ensures BytesLess(a, c)
  {
    if a == [] || !(a[0] == b[0] == c[0]) {
    } else {
      BytesLessTransitive(a[1..], b[1..], c[1..]);
    }
  }

  lemma {:induction false} BytesLessTotal(a: Bytes, b: Bytes)
    requires a != b
    ensures BytesLess(a, b) || BytesLess(b, a)
  {
    if a == [] || b == [] || a[0] != b[0] {
    } else {
      assert a == [a[0]] + a[1..] && b == [b[0]] + b[1..];
      BytesLessTotal(a[1..], b[1..]);
    }
  }
}
