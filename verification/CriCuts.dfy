/** How far the emitted entries depend on where the reads happen to cut the stream. */
module CriCuts {
  import opened Seqs
  import opened ByteStrings
  import opened CriLog

  /** The pieces one stream can arrive in: nonempty reads of at most the buffer's size. */
  predicate Cutting(data: Bytes, pieces: seq<Bytes>) {
    && Flatten(pieces) == data
    && forall p :: p in pieces ==> 0 < |p| <= 4096
  }

  // ----- the entries a stream may become, without mention of reads -----

  /**
    * The entries of one terminated line. A line whose length is a positive multiple of the cap has two forms:
    * its last full block is either the `F` entry itself or, when `late`, a `P` entry before an empty `F`.
    */
  function LineChunks(line: Bytes, late: bool): seq<Chunk>
    decreases |line|
  {
    if |line| < MAX_LINE || (|line| == MAX_LINE && !late) then [Chunk(true, line)]
    else [Chunk(false, line[..MAX_LINE])] + LineChunks(line[MAX_LINE..], late)
  }

  /** The entries of the unterminated text at the end. */
  function TailChunks(text: Bytes): seq<Chunk>
    decreases |text|
  {
    if |text| < MAX_LINE then Tail(text)
    else [Chunk(false, text[..MAX_LINE])] + TailChunks(text[MAX_LINE..])
  }

  /** `chunks` is `data` split line by line, each line in one of its forms. */
  ghost predicate SplitOf(data: Bytes, chunks: seq<Chunk>)
    decreases |data|
  {
    match SplitOnce(data, NEWLINE)
    case None => chunks == TailChunks(data)
    case Some((line, more)) =>
      exists late, rest :: chunks == LineChunks(line, late) + rest && SplitOf(more, rest)
  }

  /** The entries when every line takes its short form. */
  function Canonical(data: Bytes): seq<Chunk>
    decreases |data|
  {
    match SplitOnce(data, NEWLINE)
    case None => TailChunks(data)
    case Some((line, more)) => LineChunks(line, false) + Canonical(more)
  }

  predicate PositiveMultiple(n: nat) {
    0 < n && n % MAX_LINE == 0
  }

  /** Some terminated line's length is a positive multiple of the cap. */
  predicate HasBlockLine(data: Bytes)
    decreases |data|
  {
    match SplitOnce(data, NEWLINE)
    case None => false
    case Some((line, more)) => PositiveMultiple(|line|) || HasBlockLine(more)
  }

  lemma {:induction false} LineForms(line: Bytes)
    requires !PositiveMultiple(|line|)
    ensures LineChunks(line, true) == LineChunks(line, false)
    decreases |line|
  {
    if |line| <= MAX_LINE {
    } else {
      LineForms(line[MAX_LINE..]);
    }
  }

  /** The two forms of a block line differ only in its last block: one `F` entry, or a `P` entry and an empty `F`. */
  lemma {:induction false} BlockLineForms(line: Bytes) returns (common: seq<Chunk>, block: Bytes)
    requires PositiveMultiple(|line|)
    ensures |block| == MAX_LINE
    ensures LineChunks(line, false) == common + [Chunk(true, block)]
    ensures LineChunks(line, true) == common + [Chunk(false, block), Chunk(true, [])]
    decreases |line|
  {
    if |line| == MAX_LINE {
      common, block := [], line;
      assert line[..MAX_LINE] == line && line[MAX_LINE..] == [];
    } else {
      var rest;
      rest, block := BlockLineForms(line[MAX_LINE..]);
      common := [Chunk(false, line[..MAX_LINE])] + rest;
    }
  }

  lemma {:induction false} SplitOfUnique(data: Bytes, chunks: seq<Chunk>)
    requires SplitOf(data, chunks) && !HasBlockLine(data)
    ensures chunks == Canonical(data)
    decreases |data|
  {
    match SplitOnce(data, NEWLINE)
    case None =>
    case Some((line, more)) =>
      var late, rest :| chunks == LineChunks(line, late) + rest && SplitOf(more, rest);
      LineForms(line);
      SplitOfUnique(more, rest);
  }

  // ----- every cutting gives such a split -----

  lemma {:induction false} AfterFull(line: Bytes, more: Bytes, rest: seq<Chunk>)
    requires NEWLINE !in line && |line| <= MAX_LINE && SplitOf(more, rest)
    ensures SplitOf(line + [NEWLINE] + more, [Chunk(true, line)] + rest)
  {
    SplitOnceAt(line, NEWLINE, more);
    assert [Chunk(true, line)] + rest == LineChunks(line, false) + rest;
  }

  lemma {:induction false} AfterPartial(block: Bytes, more: Bytes, rest: seq<Chunk>)
    requires NEWLINE !in block && |block| == MAX_LINE && SplitOf(more, rest)
    ensures SplitOf(block + more, [Chunk(false, block)] + rest)
  {
    match SplitOnce(more, NEWLINE)
    case None =>
      assert (block + more)[..MAX_LINE] == block;
      assert (block + more)[MAX_LINE..] == more;
    case Some((line, after)) =>
      var late, others :| rest == LineChunks(line, late) + others && SplitOf(after, others);
      assert more == line + [NEWLINE] + after;
      AfterPartialLine(block, line, late, after, others);
      ConcatAssoc(block, line + [NEWLINE], after);
      ConcatAssoc(block, line, [NEWLINE]);
      ConcatAssoc([Chunk(false, block)], LineChunks(line, late), others);
  }

  lemma {:induction false} AfterPartialLine(block: Bytes, line: Bytes, late: bool, after: Bytes, others: seq<Chunk>)
    requires NEWLINE !in block && |block| == MAX_LINE && NEWLINE !in line && SplitOf(after, others)
    ensures SplitOf(block + line + [NEWLINE] + after, [Chunk(false, block)] + LineChunks(line, late) + others)
  {
    var whole, form := block + line, |line| == 0 || late;
    SplitOnceAt(whole, NEWLINE, after);
    BlockFirst(block, line, late);
    assert SplitOf(whole + [NEWLINE] + after, LineChunks(whole, form) + others);
  }

  lemma {:induction false} BlockFirst(block: Bytes, line: Bytes, late: bool)
    requires |block| == MAX_LINE
    ensures LineChunks(block + line, |line| == 0 || late) == [Chunk(false, block)] + LineChunks(line, late)
  {
    var whole := block + line;
    assert whole[..MAX_LINE] == block && whole[MAX_LINE..] == line;
  }

  lemma {:induction false} NextChunkForm(pending: Bytes)
    requires NextChunk(pending).Some?
    ensures
      var (chunk, left) := NextChunk(pending).value;
      pending == if chunk.full then chunk.content + [NEWLINE] + left else chunk.content + left
  {
  }

  /** One entry cut from the front, whatever bytes are still to come. */
  lemma {:induction false} AfterNext(pending: Bytes, later: Bytes, rest: seq<Chunk>)
    requires NextChunk(pending).Some?
    requires SplitOf(NextChunk(pending).value.1 + later, rest)
    ensures SplitOf(pending + later, [NextChunk(pending).value.0] + rest)
  {
    var (chunk, left) := NextChunk(pending).value;
    NextChunkShape(pending);
    NextChunkForm(pending);
    if chunk.full {
      AfterFull(chunk.content, left + later, rest);
      ConcatAssoc(chunk.content + [NEWLINE], left, later);
    } else {
      AfterPartial(chunk.content, left + later, rest);
      ConcatAssoc(chunk.content, left, later);
    }
  }

  lemma {:induction false} AfterDrain(pending: Bytes, later: Bytes, rest: seq<Chunk>)
    requires SplitOf(Drain(pending).1 + later, rest)
    ensures SplitOf(pending + later, Drain(pending).0 + rest)
    decreases |pending|
  {
    match NextChunk(pending)
    case None =>
      assert [] + rest == rest;
    case Some((chunk, left)) =>
      AfterDrain(left, later, rest);
      AfterNext(pending, later, Drain(left).0 + rest);
      ConcatAssoc([chunk], Drain(left).0, rest);
  }

  lemma {:induction false} AfterFeed(pending: Bytes, pieces: seq<Bytes>)
    requires NextChunk(pending).None?
    ensures SplitOf(pending + Flatten(pieces), Feed(pending, pieces).0 + Tail(Feed(pending, pieces).1))
    decreases |pieces|
  {
    if pieces == [] {
      assert pending + [] == pending;
      assert [] + Tail(pending) == Tail(pending);
    } else {
      var (chunks, left) := Drain(pending + pieces[0]);
      AfterFeed(left, pieces[1..]);
      var (more, last) := Feed(left, pieces[1..]);
      AfterDrain(pending + pieces[0], Flatten(pieces[1..]), more + Tail(last));
      ConcatAssoc(pending, pieces[0], Flatten(pieces[1..]));
      ConcatAssoc(chunks, more, Tail(last));
    }
  }

  /** Whatever the reads, the entries are the stream's lines, each in one of its (at most two) forms. */
  lemma {:induction false} EveryCuttingSplits(pieces: seq<Bytes>)
    ensures SplitOf(Flatten(pieces), Split(pieces))
  {
    AfterFeed([], pieces);
    assert [] + Flatten(pieces) == Flatten(pieces);
  }

  // ----- and a block line is always emitted in both forms by some cuttings -----

  /** The part of the stream still pending once everything that can be cut has been cut. */
  function Remainder(data: Bytes): Bytes
    decreases |data|
  {
    match SplitOnce(data, NEWLINE)
    case Some((_, more)) => Remainder(more)
    case None => if |data| < MAX_LINE then data else Remainder(data[MAX_LINE..])
  }

  lemma {:induction false} RemainderAfterBlock(block: Bytes, more: Bytes)
    requires NEWLINE !in block && |block| == MAX_LINE
    ensures Remainder(block + more) == Remainder(more)
  {
  }

  lemma {:induction false} DrainRemainder(pending: Bytes, later: Bytes)
    ensures Remainder(pending + later) == Remainder(Drain(pending).1 + later)
    decreases |pending|
  {
    match NextChunk(pending)
    case None =>
    case Some((chunk, left)) =>
      NextChunkShape(pending);
      NextChunkForm(pending);
      if chunk.full {
        ConcatAssoc(chunk.content + [NEWLINE], left, later);
        SplitOnceAt(chunk.content, NEWLINE, left + later);
      } else {
        ConcatAssoc(chunk.content, left, later);
        RemainderAfterBlock(chunk.content, left + later);
      }
      DrainRemainder(left, later);
  }

  lemma {:induction false} FeedRemainder(pending: Bytes, pieces: seq<Bytes>)
    requires NextChunk(pending).None?
    ensures Feed(pending, pieces).1 == Remainder(pending + Flatten(pieces))
    decreases |pieces|
  {
    if pieces == [] {
      assert pending + [] == pending;
    } else {
      DrainRemainder(pending + pieces[0], Flatten(pieces[1..]));
      ConcatAssoc(pending, pieces[0], Flatten(pieces[1..]));
      FeedRemainder(Drain(pending + pieces[0]).1, pieces[1..]);
    }
  }

  /** Reading one byte at a time is a cutting of any stream. */
  function Singles(data: Bytes): (pieces: seq<Bytes>)
    ensures Cutting(data, pieces)
  {
    if data == [] then [] else
    assert [data[0]] + data[1..] == data;
    [[data[0]]] + Singles(data[1..])
  }

  lemma {:induction false} RemainderOfLine(line: Bytes)
    requires NEWLINE !in line
    ensures |Remainder(line)| == |line| % MAX_LINE
    decreases |line|
  {
    if |line| >= MAX_LINE {
      RemainderOfLine(line[MAX_LINE..]);
    }
  }

  lemma {:induction false} RemainderAfterLines(before: Bytes, line: Bytes)
    requires before == [] || before[|before| - 1] == NEWLINE
    ensures Remainder(before + line) == Remainder(line)
    decreases |before|
  {
    if before == [] {
      assert before + line == line;
    } else {
      var (first, more) := SplitOnce(before, NEWLINE).value;
      ConcatAssoc(first + [NEWLINE], more, line);
      SplitOnceAt(first, NEWLINE, more + line);
      RemainderAfterLines(more, line);
    }
  }

  /** A block line, the lines before it and whatever follows it. */
  lemma {:induction false} FindBlockLine(data: Bytes) returns (before: Bytes, line: Bytes, after: Bytes)
    requires HasBlockLine(data)
    ensures data == before + (line + ([NEWLINE] + after))
    ensures before == [] || before[|before| - 1] == NEWLINE
    ensures NEWLINE !in line && PositiveMultiple(|line|)
    decreases |data|
  {
    var (first, more) := SplitOnce(data, NEWLINE).value;
    if PositiveMultiple(|first|) {
      before, line, after := [], first, more;
      ConcatAssoc(first, [NEWLINE], more);
    } else {
      var lines;
      lines, line, after := FindBlockLine(more);
      before := first + [NEWLINE] + lines;
      ConcatAssoc(first + [NEWLINE], lines, line + ([NEWLINE] + after));
    }
  }

  /** With a full block but for one byte pending, the newline may arrive together with that byte or after it. */
  lemma {:induction false} LastByteTogetherOrApart(pending: Bytes, last: Byte, later: seq<Bytes>)
    requires NEWLINE !in pending && |pending| == MAX_LINE - 1 && last != NEWLINE
    ensures
      var together := Feed(pending, [[last, NEWLINE]] + later).0;
      var apart := Feed(pending, [[last], [NEWLINE]] + later).0;
      together != [] && apart != [] && together[0].full && !apart[0].full
  {
  }

  lemma {:induction false} OneByteLess(n: nat)
    requires PositiveMultiple(n)
    ensures (n - 1) % MAX_LINE == MAX_LINE - 1
  {
  }

  /** The byte before a block line's newline comes with one byte less than a full block pending. */
  lemma {:induction false} PendingBeforeLastByte(before: Bytes, text: Bytes, pieces: seq<Bytes>)
    requires before == [] || before[|before| - 1] == NEWLINE
    requires NEWLINE !in text && |text| % MAX_LINE == MAX_LINE - 1
    requires Flatten(pieces) == before + text
    ensures NEWLINE !in Feed([], pieces).1 && |Feed([], pieces).1| == MAX_LINE - 1
  {
    FeedShape([], pieces);
    FeedRemainder([], pieces);
    assert [] + Flatten(pieces) == before + text;
    RemainderAfterLines(before, text);
    RemainderOfLine(text);
  }

  lemma {:induction false} DifferFromThere(common: seq<Bytes>, last: Byte, later: seq<Bytes>)
    requires NEWLINE !in Feed([], common).1 && |Feed([], common).1| == MAX_LINE - 1 && last != NEWLINE
    ensures Split(common + ([[last, NEWLINE]] + later)) != Split(common + ([[last], [NEWLINE]] + later))
  {
    var (chunks, pending) := Feed([], common);
    LastByteTogetherOrApart(pending, last, later);
    FeedConcat([], common, [[last, NEWLINE]] + later);
    FeedConcat([], common, [[last], [NEWLINE]] + later);
    assert Split(common + ([[last, NEWLINE]] + later))[|chunks|].full;
    assert !Split(common + ([[last], [NEWLINE]] + later))[|chunks|].full;
  }

  lemma {:induction false} CuttingConcat(a: Bytes, pa: seq<Bytes>, b: Bytes, pb: seq<Bytes>)
    requires Cutting(a, pa) && Cutting(b, pb)
    ensures Cutting(a + b, pa + pb)
  {
    FlattenConcat(pa, pb);
  }

  lemma {:induction false} CutAroundLastByte(a: Bytes, common: seq<Bytes>, last: Byte, b: Bytes, later: seq<Bytes>)
    requires Cutting(a, common) && Cutting(b, later)
    ensures Cutting(a + ([last, NEWLINE] + b), common + ([[last, NEWLINE]] + later))
    ensures Cutting(a + ([last, NEWLINE] + b), common + ([[last], [NEWLINE]] + later))
  {
    var end: Bytes := [last, NEWLINE];
    assert Flatten([end]) == end + Flatten([end][1..]);
    CuttingConcat(end, [end], b, later);
    CuttingConcat(a, common, end + b, [end] + later);
    assert [[last], [NEWLINE]] == Singles(end);
    CuttingConcat(end, Singles(end), b, later);
    CuttingConcat(a, common, end + b, Singles(end) + later);
  }

  lemma {:induction false} MoveLastByte(a: Bytes, line: Bytes, b: Bytes)
    requires line != []
    ensures a + (line + ([NEWLINE] + b)) == (a + line[..|line| - 1]) + ([line[|line| - 1], NEWLINE] + b)
  {
  }

  /** Two cuttings of a stream with a block line whose entries differ. */
  lemma {:induction false} BlockLineDiffers(data: Bytes) returns (together: seq<Bytes>, apart: seq<Bytes>)
    requires HasBlockLine(data)
    ensures Cutting(data, together) && Cutting(data, apart)
    ensures Split(together) != Split(apart)
  {
    var before, line, after := FindBlockLine(data);
    var text, last := line[..|line| - 1], line[|line| - 1];
    var common, later := Singles(before + text), Singles(after);
    OneByteLess(|line|);
    PendingBeforeLastByte(before, text, common);
    DifferFromThere(common, last, later);
    CutAroundLastByte(before + text, common, last, after, later);
    MoveLastByte(before, line, after);
    together := common + ([[last, NEWLINE]] + later);
    apart := common + ([[last], [NEWLINE]] + later);
  }

  /** The entries depend on the reads exactly when some terminated line's length is a positive multiple of the cap. */
  lemma {:induction false} CutsMatterExactlyForBlockLines(data: Bytes)
    ensures (forall a, b :: Cutting(data, a) && Cutting(data, b) ==> Split(a) == Split(b)) <==> !HasBlockLine(data)
    ensures !HasBlockLine(data) ==> forall a :: Cutting(data, a) ==> Split(a) == Canonical(data)
  {
    if HasBlockLine(data) {
      var together, apart := BlockLineDiffers(data);
    } else {
      forall a | Cutting(data, a)
        ensures Split(a) == Canonical(data)
      {
        EveryCuttingSplits(a);
        SplitOfUnique(data, Split(a));
      }
    }
  }
}
