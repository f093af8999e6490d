/** The records `hash_path` writes into the hasher, and what can be read back from their concatenation. */
module DigestRecords {
  import opened Seqs
  import opened ByteStrings

  /** What is recorded about one path: a file's bytes, a symlink's target, or that it is a directory. */
  datatype Own = OwnFile(content: Bytes) | OwnLink(target: Bytes) | OwnDir

  datatype Record = Record(path: Bytes, own: Own)

  const TAG_FILE: Byte := 70
  const TAG_LINK: Byte := 76
  const TAG_DIR: Byte := 68

  /** ` -> ` */
  const ARROW: Bytes := [32, 45, 62, 32]

  // ----- decimal numbers -----

  function Digit(n: nat): Byte
    requires n < 10
  {
    48 + n as Byte
  }

  function Decimal(n: nat): Bytes {
    if n < 10 then [Digit(n)] else Decimal(n / 10) + [Digit(n % 10)]
  }

  function Value(digits: Bytes): int {
    if digits == [] then 0 else Value(digits[..|digits| - 1]) * 10 + (digits[|digits| - 1] as int - 48)
  }

  lemma {:induction false} DecimalReadsBack(n: nat)
    ensures Value(Decimal(n)) == n
    ensures SPACE !in Decimal(n) && NEWLINE !in Decimal(n)
  {
    if n < 10 {
      assert [Digit(n)][..0] == [];
    } else {
      DecimalReadsBack(n / 10);
      assert (Decimal(n / 10) + [Digit(n % 10)])[..|Decimal(n / 10)|] == Decimal(n / 10);
    }
  }

  // ----- writing -----

  /** The first line of a record, without its newline. */
  function Header(r: Record): Bytes {
    match r.own
    case OwnFile(content) => [TAG_FILE, SPACE] + (r.path + [SPACE] + Decimal(|content|))
    case OwnLink(target) => [TAG_LINK, SPACE] + (r.path + ARROW + target)
    case OwnDir => [TAG_DIR, SPACE] + r.path
  }

  function Body(r: Record): Bytes {
    if r.own.OwnFile? then r.own.content else []
  }

  function Write(r: Record): Bytes {
    Header(r) + [NEWLINE] + Body(r)
  }

  function WriteAll(rs: seq<Record>): Bytes {
    if rs == [] then [] else Write(rs[0]) + WriteAll(rs[1..])
  }

  lemma {:induction false} WriteAllConcat(a: seq<Record>, b: seq<Record>)
    ensures WriteAll(a + b) == WriteAll(a) + WriteAll(b)
  {
    if a == [] {
      assert a + b == b;
    } else {
      assert (a + b)[1..] == a[1..] + b;
      WriteAllConcat(a[1..], b);
    }
  }

  // ----- reading back -----

  /** Neither the path nor a link's target holds a newline. */
  predicate OneLine(r: Record) {
    NEWLINE !in r.path && (r.own.OwnLink? ==> NEWLINE !in r.own.target)
  }

  predicate ArrowAt(text: Bytes, i: nat) {
    i + |ARROW| <= |text| && text[i..i + |ARROW|] == ARROW
  }

  /** The line of a symlink shows ` -> ` at one place only, between its path and its target. */
  ghost predicate OneArrow(r: Record) {
    r.own.OwnLink? ==>
      var text := r.path + ARROW + r.own.target;
      forall i: nat :: ArrowAt(text, i) ==> i == |r.path|
  }

  lemma {:induction false} HeaderOneLine(r: Record)
    requires OneLine(r)
    ensures NEWLINE !in Header(r)
  {
    if r.own.OwnFile? {
      DecimalReadsBack(|r.own.content|);
    }
  }

  /** A text is split in one way only at its last space. */
  lemma {:induction false} LastSpace(a: Bytes, x: Bytes, b: Bytes, y: Bytes)
    requires a + [SPACE] + x == b + [SPACE] + y && SPACE !in x && SPACE !in y
    ensures a == b && x == y
  {
    var t := a + [SPACE] + x;
    assert t[|a|] == SPACE && t[|b|] == SPACE;
    assert forall i :: |a| < i < |t| ==> t[i] == x[i - |a| - 1];
    assert forall i :: |b| < i < |t| ==> t[i] == y[i - |b| - 1];
    assert |a| == |b|;
    assert a == t[..|a|] && b == t[..|b|];
    assert x == t[|a| + 1..] && y == t[|b| + 1..];
  }

  lemma {:induction false} SameLink(r: Record, q: Record)
    requires r.own.OwnLink? && q.own.OwnLink? && OneArrow(r)
    requires r.path + ARROW + r.own.target == q.path + ARROW + q.own.target
    ensures r == q
  {
    var text := r.path + ARROW + r.own.target;
    assert text == q.path + ARROW + q.own.target;
    assert text[|q.path|..|q.path| + |ARROW|] == ARROW;
    assert ArrowAt(text, |q.path|);
    assert r.path == text[..|r.path|] && q.path == text[..|q.path|];
    assert r.own.target == text[|r.path| + |ARROW|..] && q.own.target == text[|q.path| + |ARROW|..];
  }

  lemma {:induction false} SameTail(tag: Byte, a: Bytes, b: Bytes)
    requires [tag, SPACE] + a == [tag, SPACE] + b
    ensures a == b
  {
    assert ([tag, SPACE] + a)[2..] == a && ([tag, SPACE] + b)[2..] == b;
  }

  /** Equal first lines are of the same kind, path and target; for a file, of the same length. */
  lemma {:induction false} SameHeader(r: Record, q: Record)
    requires Header(r) == Header(q) && OneArrow(r)
    ensures r.path == q.path
    ensures if r.own.OwnFile? then q.own.OwnFile? && |r.own.content| == |q.own.content| else r.own == q.own
  {
    assert Header(r)[0] == Header(q)[0];
    match r.own
    case OwnFile(c) =>
      SameTail(TAG_FILE, r.path + [SPACE] + Decimal(|c|), q.path + [SPACE] + Decimal(|q.own.content|));
      DecimalReadsBack(|c|);
      DecimalReadsBack(|q.own.content|);
      LastSpace(r.path, Decimal(|c|), q.path, Decimal(|q.own.content|));
    case OwnLink(_) =>
      SameTail(TAG_LINK, r.path + ARROW + r.own.target, q.path + ARROW + q.own.target);
      SameLink(r, q);
    case OwnDir =>
      SameTail(TAG_DIR, r.path, q.path);
  }

  /** One record can be read off the front of any stream it begins. */
  lemma {:induction false} FirstRecord(r: Record, more: Bytes, q: Record, rest: Bytes)
    requires OneLine(r) && OneLine(q) && OneArrow(r)
    requires Write(r) + more == Write(q) + rest
    ensures r == q && more == rest
  {
    HeaderOneLine(r);
    HeaderOneLine(q);
    ConcatAssoc(Header(r) + [NEWLINE], Body(r), more);
    ConcatAssoc(Header(q) + [NEWLINE], Body(q), rest);
    SplitOnceAt(Header(r), NEWLINE, Body(r) + more);
    SplitOnceAt(Header(q), NEWLINE, Body(q) + rest);
    SameHeader(r, q);
    assert Body(r) == (Body(r) + more)[..|Body(r)|] && Body(q) == (Body(q) + rest)[..|Body(q)|];
    assert more == (Body(r) + more)[|Body(r)|..] && rest == (Body(q) + rest)[|Body(q)|..];
  }

  /**
    * The stream determines its records, whatever bytes the files hold: it is enough that no path or target holds a
    * newline and that the symlinks of one of the two sides show their arrow once.
    */
  lemma {:induction false} StreamDeterminesRecords(a: seq<Record>, b: seq<Record>)
    requires (forall r :: r in a ==> OneLine(r) && OneArrow(r)) && (forall r :: r in b ==> OneLine(r))
    requires WriteAll(a) == WriteAll(b)
    ensures a == b
    decreases |a|
  {
    WriteAllEmpty(a);
    WriteAllEmpty(b);
    if a == [] || b == [] {
    } else {
      FirstRecord(a[0], WriteAll(a[1..]), b[0], WriteAll(b[1..]));
      StreamDeterminesRecords(a[1..], b[1..]);
      FirstAndRest(a);
      FirstAndRest(b);
    }
  }

  lemma {:induction false} WriteAllEmpty(rs: seq<Record>)
    ensures WriteAll(rs) == [] <==> rs == []
  {
    if rs != [] {
      assert |Write(rs[0])| > 0;
    }
  }

  /** Another arrow in a symlink's line is another symlink with the same line. */
  lemma {:induction false} OtherLink(r: Record, i: nat) returns (q: Record)
    requires r.own.OwnLink?
    requires ArrowAt(r.path + ARROW + r.own.target, i) && i != |r.path|
    ensures q != r && Write(q) == Write(r)
    ensures OneLine(r) ==> OneLine(q)
  {
    var text := r.path + ARROW + r.own.target;
    assert OneLine(r) ==> NEWLINE !in text;
    var path, target := text[..i], text[i + |ARROW|..];
    q := Record(path, OwnLink(target));
    assert text == path + ARROW + target;
    assert |path| != |r.path|;
  }

  lemma {:induction false} SameWrittenLink(r: Record, q: Record)
    requires r.own.OwnLink? && OneArrow(r) && Write(q) == Write(r)
    ensures q == r
  {
    assert Write(q)[0] == Write(r)[0];
    assert Header(r) == Write(r)[..|Write(r)| - 1] && Header(q) == Write(q)[..|Write(q)| - 1];
    SameHeader(r, q);
  }

  /** A symlink's record, newlines or not, is that of no other path exactly when it shows the arrow once. */
  lemma {:induction false} OneArrowExactly(r: Record)
    requires r.own.OwnLink?
    ensures OneArrow(r) <==> forall q :: Write(q) == Write(r) ==> q == r
    ensures OneLine(r) ==> (OneArrow(r) <==> forall q :: OneLine(q) && Write(q) == Write(r) ==> q == r)
  {
    if OneArrow(r) {
      forall q | Write(q) == Write(r)
        ensures q == r
      {
        SameWrittenLink(r, q);
      }
    } else {
      var i: nat :| ArrowAt(r.path + ARROW + r.own.target, i) && i != |r.path|;
      var q := OtherLink(r, i);
    }
  }

  predicate AllOneLine(rs: seq<Record>) {
    forall r :: r in rs ==> OneLine(r)
  }

  /**
    * Among lists without newlines in paths and targets, a stream determines its records exactly if every arrow
    * is shown once.
    */
  lemma {:induction false} RecordsDeterminedExactly(a: seq<Record>)
    requires AllOneLine(a)
    ensures (forall b :: AllOneLine(b) && WriteAll(b) == WriteAll(a) ==> b == a) <==> (forall r :: r in a ==> OneArrow(r))
  {
    if r :| r in a && !OneArrow(r) {
      var k :| 0 <= k < |a| && a[k] == r;
      var b := OtherList(a, k);
    } else {
      forall b | AllOneLine(b) && WriteAll(b) == WriteAll(a)
        ensures b == a
      {
        StreamDeterminesRecords(a, b);
      }
    }
  }

  lemma {:induction false} OtherList(a: seq<Record>, k: nat) returns (b: seq<Record>)
    requires AllOneLine(a) && k < |a| && !OneArrow(a[k])
    ensures AllOneLine(b) && b != a && WriteAll(b) == WriteAll(a)
  {
    var r := a[k];
    assert r in a;
    var i: nat :| ArrowAt(r.path + ARROW + r.own.target, i) && i != |r.path|;
    var q := OtherLink(r, i);
    Around(a, k, q);
    Replaced(a[..k], r, q, a[k + 1..]);
    b := a[k := q];
    assert b[k] != a[k];
    OneReplaced(a, k, q);
  }

  lemma {:induction false} OneReplaced(a: seq<Record>, k: nat, q: Record)
    requires AllOneLine(a) && k < |a| && OneLine(q)
    ensures AllOneLine(a[k := q])
  {
    forall r | r in a[k := q]
      ensures OneLine(r)
    {
      var j :| 0 <= j < |a| && a[k := q][j] == r;
      assert j != k ==> a[j] in a;
    }
  }

  lemma {:induction false} Replaced(before: seq<Record>, r: Record, q: Record, after: seq<Record>)
    requires Write(q) == Write(r)
    ensures WriteAll(before + ([q] + after)) == WriteAll(before + ([r] + after))
  {
    WriteAllConcat(before, [r] + after);
    WriteAllConcat(before, [q] + after);
    WriteFront(r, after);
    WriteFront(q, after);
  }

  lemma {:induction false} WriteFront(r: Record, rs: seq<Record>)
    ensures WriteAll([r] + rs) == Write(r) + WriteAll(rs)
  {
    assert ([r] + rs)[1..] == rs;
  }

  /** A path and a target without `->` show the arrow once. */
  lemma {:induction false} NoArrowText(r: Record)
    requires r.own.OwnLink?
    requires forall i :: 0 <= i < |r.path| - 1 ==> !(r.path[i] == 45 && r.path[i + 1] == 62)
    requires forall i :: 0 <= i < |r.own.target| - 1 ==> !(r.own.target[i] == 45 && r.own.target[i + 1] == 62)
    ensures OneArrow(r)
  {
    var text, n := r.path + ARROW + r.own.target, |r.path|;
    forall i: nat | ArrowAt(text, i)
      ensures i == n
    {
      assert text[i..i + 4][1] == text[i + 1] && text[i..i + 4][2] == text[i + 2];
      assert text[n] == 32 && text[n + 1] == 45 && text[n + 2] == 62 && text[n + 3] == 32;
      assert forall k :: 0 <= k < n ==> text[k] == r.path[k];
      assert forall k :: n + 4 <= k < |text| ==> text[k] == r.own.target[k - n - 4];
    }
  }
}
