/** In which record directories the order of the listing matters: exactly those. */
module RecordOrder {
  import opened Seqs
  import opened ByteStrings
  import opened Sorting
  import opened RecordStore

  /** The sort cannot tell the records apart. */
  predicate SameKey(r: Record, q: Record) {
    r.createdAt == q.createdAt && r.id == q.id
  }

  ghost predicate Unreadable(files: Files) {
    exists name :: name in files && IsJson(name) && files[name].None?
  }

  /** Some record file cannot be read, or no two of them hold different records of the same ID and time. */
  ghost predicate Settled(files: Files) {
    || Unreadable(files)
    || forall m, n :: m in files && n in files && IsJson(m) && IsJson(n) && SameKey(files[m].value, files[n].value) ==>
         files[m] == files[n]
  }

  lemma {:induction false} ConsistentSettled(files: Files)
    requires Consistent(files)
    ensures Settled(files)
  {
  }

  // ----- what is read -----

  lemma {:induction false} ReadFailsExactly(files: Files, listing: seq<Bytes>)
    requires forall name :: name in listing ==> name in files
    ensures ReadAll(files, listing).None? <==> exists name :: name in listing && IsJson(name) && files[name].None?
  {
    if listing == [] {
    } else {
      ReadFailsExactly(files, listing[1..]);
      assert listing == [listing[0]] + listing[1..];
    }
  }

  lemma {:induction false} ReadFromFiles(files: Files, listing: seq<Bytes>, r: Record)
    requires (forall name :: name in listing ==> name in files) && ReadAll(files, listing).Some?
    requires r in ReadAll(files, listing).value
    ensures exists name :: name in listing && IsJson(name) && files[name] == Some(r)
  {
    var first, rest := listing[0], listing[1..];
    assert first in listing;
    if IsJson(first) && files[first] == Some(r) {
    } else {
      ReadFromFiles(files, rest, r);
      var name :| name in rest && IsJson(name) && files[name] == Some(r);
      assert name in listing;
    }
  }

  /** The record a file adds to what is read. */
  function Added(files: Files, name: Bytes): seq<Record>
    requires name in files
  {
    if IsJson(name) && files[name].Some? then [files[name].value] else []
  }

  lemma {:induction false} ReadAround(files: Files, before: seq<Bytes>, name: Bytes, after: seq<Bytes>)
    requires !Unreadable(files) && forall x :: x in before + ([name] + after) ==> x in files
    ensures name in files && ReadAll(files, before + ([name] + after)).Some? && ReadAll(files, before + after).Some?
    ensures multiset(ReadAll(files, before + ([name] + after)).value)
         == multiset(ReadAll(files, before + after).value) + multiset(Added(files, name))
  {
    var with, without := before + ([name] + after), before + after;
    assert name in [name] + after && name in with;
    ReadFailsExactly(files, with);
    ReadFailsExactly(files, without);
    if before == [] {
      assert with == [name] + after && without == after && with[1..] == after;
    } else {
      assert with[1..] == before[1..] + ([name] + after) && without[1..] == before[1..] + after;
      ReadAround(files, before[1..], name, after);
    }
  }

  lemma {:induction false} ReadWithout(files: Files, a: seq<Bytes>, j: nat)
    requires !Unreadable(files) && (forall x :: x in a ==> x in files) && j < |a|
    ensures ReadAll(files, a).Some? && ReadAll(files, a[..j] + a[j + 1..]).Some?
    ensures multiset(ReadAll(files, a).value)
         == multiset(ReadAll(files, a[..j] + a[j + 1..]).value) + multiset(Added(files, a[j]))
  {
    assert a == a[..j] + ([a[j]] + a[j + 1..]);
    ReadAround(files, a[..j], a[j], a[j + 1..]);
  }

  lemma {:induction false} SameRead(files: Files, a: seq<Bytes>, b: seq<Bytes>)
    requires !Unreadable(files) && (forall x :: x in a ==> x in files) && multiset(a) == multiset(b)
    ensures forall x :: x in b ==> x in files
    ensures ReadAll(files, a).Some? && ReadAll(files, b).Some?
    ensures multiset(ReadAll(files, a).value) == multiset(ReadAll(files, b).value)
    decreases |a|
  {
    forall x | x in b
      ensures x in files
    {
      InMultiset(a, b, x);
    }
    if a == [] {
      assert |multiset(b)| == 0;
      assert b == [];
    } else {
      InMultiset(a, b, a[0]);
      var j :| 0 <= j < |b| && b[j] == a[0];
      TakeOut(a, b, j);
      ReadWithout(files, a, 0);
      ReadWithout(files, b, j);
      assert a[..0] + a[1..] == a[1..];
      SameRead(files, a[1..], b[..j] + b[j + 1..]);
    }
  }

  lemma {:induction false} SameMembers(a: seq<Bytes>, b: seq<Bytes>)
    requires forall x :: x in a <==> x in b
    requires forall i, j :: 0 <= i < j < |a| ==> a[i] != a[j]
    requires forall i, j :: 0 <= i < j < |b| ==> b[i] != b[j]
    ensures multiset(a) == multiset(b)
  {
    forall x
      ensures multiset(a)[x] == multiset(b)[x]
    {
      Once(a, x);
      Once(b, x);
    }
  }

  lemma {:induction false} Once(a: seq<Bytes>, x: Bytes)
    requires forall i, j :: 0 <= i < j < |a| ==> a[i] != a[j]
    ensures multiset(a)[x] == if x in a then 1 else 0
  {
    if a == [] {
    } else {
      assert a == [a[0]] + a[1..];
      assert multiset(a) == multiset{a[0]} + multiset(a[1..]);
      Once(a[1..], x);
      assert forall k :: 0 <= k < |a[1..]| ==> a[1..][k] == a[k + 1];
    }
  }

  // ----- the exact condition -----

  lemma {:induction false} SettledOrderIrrelevant(files: Files, a: seq<Bytes>, b: seq<Bytes>)
    requires Settled(files) && Lists(files, a) && Lists(files, b)
    ensures LoadedFrom(files, a) == LoadedFrom(files, b)
  {
    ReadFailsExactly(files, a);
    ReadFailsExactly(files, b);
    if !Unreadable(files) {
      SameMembers(a, b);
      SameRead(files, a, b);
      NewerOrder();
      SettledComparable(files, a);
      SortPermuted(Newer, ReadAll(files, a).value, ReadAll(files, b).value);
    }
  }

  lemma {:induction false} SettledComparable(files: Files, listing: seq<Bytes>)
    requires Settled(files) && !Unreadable(files) && Lists(files, listing) && ReadAll(files, listing).Some?
    ensures ComparableOrSame(Newer, ReadAll(files, listing).value)
  {
    var rs := ReadAll(files, listing).value;
    forall x, y | x in rs && y in rs
      ensures x == y || Newer(x, y) || Newer(y, x)
    {
      ReadFromFiles(files, listing, x);
      ReadFromFiles(files, listing, y);
      if x.id != y.id {
        BytesLessTotal(x.id, y.id);
      }
    }
  }

  /** A listing of a set of names. */
  lemma {:induction false} ListSet(names: set<Bytes>) returns (listing: seq<Bytes>)
    ensures forall x :: x in listing <==> x in names
    ensures forall i, j :: 0 <= i < j < |listing| ==> listing[i] != listing[j]
  {
    if names == {} {
      listing := [];
    } else {
      var x :| x in names;
      var rest := ListSet(names - {x});
      listing := [x] + rest;
    }
  }

  /** Two different records that the sort cannot tell apart come out as they are listed. */
  lemma {:induction false} UnsettledDiffers(files: Files, m: Bytes, n: Bytes) returns (a: seq<Bytes>, b: seq<Bytes>)
    requires !Unreadable(files) && m in files && n in files && IsJson(m) && IsJson(n)
    requires SameKey(files[m].value, files[n].value) && files[m] != files[n]
    ensures Lists(files, a) && Lists(files, b) && LoadedFrom(files, a) != LoadedFrom(files, b)
  {
    var others := ListSet(files.Keys - {m, n});
    a, b := [m] + ([n] + others), [n] + ([m] + others);
    ListsTwo(files, m, n, others);
    ListsTwo(files, n, m, others);
    ReadFailsExactly(files, others);
    ReadTwo(files, m, n, others);
    ReadTwo(files, n, m, others);
    OrderShows(files[m].value, files[n].value, Sort(Newer, ReadAll(files, others).value));
  }

  lemma {:induction false} OrderShows(x: Record, y: Record, s: seq<Record>)
    requires SameKey(x, y) && x != y
    ensures Insert(Newer, x, Insert(Newer, y, s)) != Insert(Newer, y, Insert(Newer, x, s))
  {
    BytesLessIrreflexive(x.id);
    InsertKeepsOrder(Newer, x, y, s);
  }

  lemma {:induction false} ListsTwo(files: Files, m: Bytes, n: Bytes, others: seq<Bytes>)
    requires m in files && n in files && m != n
    requires forall x :: x in others <==> x in files && x != m && x != n
    requires forall i, j :: 0 <= i < j < |others| ==> others[i] != others[j]
    ensures Lists(files, [m] + ([n] + others))
  {
    var all := [m] + ([n] + others);
    assert forall i :: 2 <= i < |all| ==> all[i] == others[i - 2] && all[i] in others;
  }

  lemma {:induction false} ReadTwo(files: Files, m: Bytes, n: Bytes, others: seq<Bytes>)
    requires !Unreadable(files) && m in files && n in files && IsJson(m) && IsJson(n)
    requires (forall x :: x in others ==> x in files) && ReadAll(files, others).Some?
    ensures forall x :: x in [m] + ([n] + others) ==> x in files
    ensures LoadedFrom(files, [m] + ([n] + others))
         == Ok(Insert(Newer, files[m].value, Insert(Newer, files[n].value, Sort(Newer, ReadAll(files, others).value))))
  {
    var x, y, rest := files[m].value, files[n].value, ReadAll(files, others).value;
    assert ([m] + ([n] + others))[1..] == [n] + others && ([n] + others)[1..] == others;
    assert ReadAll(files, [n] + others) == Some([y] + rest);
    assert ReadAll(files, [m] + ([n] + others)) == Some([x] + ([y] + rest));
    assert ([y] + rest)[1..] == rest;
    assert Sort(Newer, [y] + rest) == Insert(Newer, y, Sort(Newer, rest));
    assert ([x] + ([y] + rest))[1..] == [y] + rest;
    assert Sort(Newer, [x] + ([y] + rest)) == Insert(Newer, x, Sort(Newer, [y] + rest));
  }

  /**
    * The order in which the directory is listed does not matter exactly when a record file cannot be read, which
    * fails every load, or no two files hold different records of the same ID and creation time.
    */
  lemma {:induction false} ListingOrderIrrelevant(files: Files)
    ensures (forall a, b :: Lists(files, a) && Lists(files, b) ==> LoadedFrom(files, a) == LoadedFrom(files, b))
       <==> Settled(files)
  {
    if Settled(files) {
      forall a, b | Lists(files, a) && Lists(files, b)
        ensures LoadedFrom(files, a) == LoadedFrom(files, b)
      {
        SettledOrderIrrelevant(files, a, b);
      }
    } else {
      var m, n :| m in files && n in files && IsJson(m) && IsJson(n) && SameKey(files[m].value, files[n].value)
                  && files[m] != files[n];
      var a, b := UnsettledDiffers(files, m, n);
    }
  }
}
