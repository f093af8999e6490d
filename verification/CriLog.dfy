/** The CRI log format and the stream splitter of `copy_stream_as_cri`. */
module CriLog {
  import opened Seqs
  import opened ByteStrings

  // ----- the line format -----

  datatype Stream = Stdout | Stderr

  /** One log entry's tag and content: `F` when `full`, `P` otherwise. */
  datatype Chunk = Chunk(full: bool, content: Bytes)

  datatype Line = Line(timestamp: Bytes, stream: Stream, chunk: Chunk)

  const TAG_FULL: Byte := 70
  const TAG_PARTIAL: Byte := 80

  function Label(stream: Stream): Bytes {
    match stream
    case Stdout => [115, 116, 100, 111, 117, 116]
    case Stderr => [115, 116, 100, 101, 114, 114]
  }

  function Tag(full: bool): Byte {
    if full then TAG_FULL else TAG_PARTIAL
  }

  /** `<timestamp> <stream> <P|F> <content>`, before its newline. */
  function FormatFields(line: Line): Bytes {
    line.timestamp + [SPACE] + (Label(line.stream) + [SPACE] + ([Tag(line.chunk.full)] + [SPACE] + line.chunk.content))
  }

  function FormatLine(line: Line): Bytes {
    FormatFields(line) + [NEWLINE]
  }

  function FormatAll(lines: seq<Line>): Bytes {
    if lines == [] then [] else FormatLine(lines[0]) + FormatAll(lines[1..])
  }

  /** Timestamps hold neither a space nor a newline; contents hold no newline. */
  predicate WellFormed(line: Line) {
    && SPACE !in line.timestamp && NEWLINE !in line.timestamp
    && NEWLINE !in line.chunk.content
  }

  // ----- a reader of the format -----

  /** `stdout` or `stderr`. */
  function ParseStream(name: Bytes): Option<Stream> {
    if name == [115, 116, 100, 111, 117, 116] then Some(Stdout)
    else if name == [115, 116, 100, 101, 114, 114] then Some(Stderr)
    else None
  }

  /** `F` or `P`. */
  function ParseTag(tag: Bytes): Option<bool> {
    if tag == [70] then Some(true)
    else if tag == [80] then Some(false)
    else None
  }

  /** Splits a line (without its newline) into its four space-separated fields. */
  function ParseLine(text: Bytes): Option<Line> {
    var (timestamp, r1) :- SplitOnce(text, SPACE);
    var (name, r2) :- SplitOnce(r1, SPACE);
    var (tag, content) :- SplitOnce(r2, SPACE);
    var stream :- ParseStream(name);
    var full :- ParseTag(tag);
    Some(Line(timestamp, stream, Chunk(full, content)))
  }

  /** Reads a whole file line by line; a file that ends inside a line is rejected. */
  function ParseLog(file: Bytes): Option<seq<Line>>
    decreases |file|
  {
    if file == [] then Some([]) else
    var (text, more) :- SplitOnce(file, NEWLINE);
    var line :- ParseLine(text);
    var lines :- ParseLog(more);
    Some([line] + lines)
  }

  /** The chunks of one stream, in file order. */
  function ChunksOf(lines: seq<Line>, stream: Stream): seq<Chunk> {
    if lines == [] then []
    else (if lines[0].stream == stream then [lines[0].chunk] else []) + ChunksOf(lines[1..], stream)
  }

  /** What the reader puts together: contents, with a newline after each full one. */
  function Reassemble(chunks: seq<Chunk>): Bytes {
    if chunks == [] then []
    else chunks[0].content + (if chunks[0].full then [NEWLINE] else []) + Reassemble(chunks[1..])
  }

  /** The bytes of a line, spelled out. */
  lemma {:induction false} LinePrinted(line: Line)
    ensures
      var name: Bytes := if line.stream == Stdout then [115, 116, 100, 111, 117, 116] else [115, 116, 100, 101, 114, 114];
      var tag: Bytes := if line.chunk.full then [70] else [80];
      FormatLine(line) == line.timestamp + ([32] + (name + ([32] + (tag + ([32] + (line.chunk.content + [10]))))))
  {
    var name, tag, space: Bytes := Label(line.stream), [Tag(line.chunk.full)], [32];
    var content := line.chunk.content;
    ConcatAssoc(tag, space, content);
    ConcatAssoc(name, space, tag + (space + content));
    ConcatAssoc(line.timestamp, space, name + (space + (tag + (space + content))));
    PushBack(space, content, [10]);
    PushBack(tag, space + content, [10]);
    PushBack(space, tag + (space + content), [10]);
    PushBack(name, space + (tag + (space + content)), [10]);
    PushBack(space, name + (space + (tag + (space + content))), [10]);
    PushBack(line.timestamp, space + (name + (space + (tag + (space + content)))), [10]);
  }

  lemma {:induction false} PushBack(a: Bytes, b: Bytes, c: Bytes)
    ensures (a + b) + c == a + (b + c)
  {
  }

  lemma {:induction false} ParseLabel(stream: Stream)
    ensures SPACE !in Label(stream) && NEWLINE !in Label(stream)
    ensures ParseStream(Label(stream)) == Some(stream)
  {
  }

  lemma {:induction false} ParseTagOf(full: bool)
    ensures Tag(full) != SPACE && Tag(full) != NEWLINE
    ensures ParseTag([Tag(full)]) == Some(full)
  {
  }

  lemma {:induction false} ParseFormattedLine(line: Line)
    requires WellFormed(line)
    ensures ParseLine(FormatFields(line)) == Some(line)
  {
    var r2 := [Tag(line.chunk.full)] + [SPACE] + line.chunk.content;
    var r1 := Label(line.stream) + [SPACE] + r2;
    SplitOnceAt(line.timestamp, SPACE, r1);
    SplitOnceAt(Label(line.stream), SPACE, r2);
    SplitOnceAt([Tag(line.chunk.full)], SPACE, line.chunk.content);
    ParseLabel(line.stream);
    ParseTagOf(line.chunk.full);
  }

  lemma {:induction false} FieldsOnOneLine(line: Line)
    requires WellFormed(line)
    ensures NEWLINE !in FormatFields(line)
  {
  }

  /** Parsing is a left inverse of printing, line by line and for a whole file. */
  lemma {:induction false} ParseFormatted(lines: seq<Line>)
    requires forall l :: l in lines ==> WellFormed(l)
    ensures ParseLog(FormatAll(lines)) == Some(lines)
  {
    if lines == [] {
    } else {
      var text, more := FormatFields(lines[0]), FormatAll(lines[1..]);
      ParseFormattedLine(lines[0]);
      ParseFormatted(lines[1..]);
      FieldsOnOneLine(lines[0]);
      SplitOnceAt(text, NEWLINE, more);
      assert FormatAll(lines) == text + [NEWLINE] + more;
      assert [lines[0]] + lines[1..] == lines;
    }
  }

  lemma {:induction false} FormatAllConcat(a: seq<Line>, b: seq<Line>)
    ensures FormatAll(a + b) == FormatAll(a) + FormatAll(b)
  {
    if a == [] {
      assert a + b == b;
    } else {
      assert (a + b)[1..] == a[1..] + b;
      FormatAllConcat(a[1..], b);
    }
  }

  lemma {:induction false} ChunksOfConcat(a: seq<Line>, b: seq<Line>, stream: Stream)
    ensures ChunksOf(a + b, stream) == ChunksOf(a, stream) + ChunksOf(b, stream)
  {
    if a == [] {
      assert a + b == b;
    } else {
      var first := if a[0].stream == stream then [a[0].chunk] else [];
      assert (a + b)[0] == a[0] && (a + b)[1..] == a[1..] + b;
      ChunksOfConcat(a[1..], b, stream);
      ConcatAssoc(first, ChunksOf(a[1..], stream), ChunksOf(b, stream));
    }
  }

  lemma {:induction false} ReassembleConcat(a: seq<Chunk>, b: seq<Chunk>)
    ensures Reassemble(a + b) == Reassemble(a) + Reassemble(b)
  {
    if a == [] {
      assert a + b == b;
    } else {
      assert (a + b)[1..] == a[1..] + b;
      ReassembleConcat(a[1..], b);
    }
  }

  // ----- the splitter, as functions -----

  const MAX_LINE: nat := 8192
  const READ_SIZE: nat := 4096

  /** One pass of the inner loop: the entry it emits and what stays pending, or `None` for its `break`. */
  function NextChunk(pending: Bytes): (r: Option<(Chunk, Bytes)>)
    ensures r.Some? ==> |r.value.1| < |pending|
    ensures r.None? <==> 10 !in pending && |pending| < 8192
  {
    var at := IndexOf(pending, NEWLINE);
    if at < |pending| && at <= MAX_LINE then
      Some((Chunk(true, pending[..at]), pending[at + 1..]))
    else if |pending| >= MAX_LINE then
      Some((Chunk(false, pending[..MAX_LINE]), pending[MAX_LINE..]))
    else
      None
  }

  /** The inner loop run to its `break`. */
  function Drain(pending: Bytes): (r: (seq<Chunk>, Bytes))
    ensures NextChunk(r.1).None?
    decreases |pending|
  {
    match NextChunk(pending)
    case None => ([], pending)
    case Some((chunk, rest)) =>
      var (chunks, left) := Drain(rest);
      ([chunk] + chunks, left)
  }

  /** The outer loop over the data of successive reads, starting from `pending`. */
  function Feed(pending: Bytes, pieces: seq<Bytes>): (seq<Chunk>, Bytes)
    decreases |pieces|
  {
    if pieces == [] then ([], pending) else
    var (chunks, left) := Drain(pending + pieces[0]);
    var (more, last) := Feed(left, pieces[1..]);
    (chunks + more, last)
  }

  /** The unterminated tail becomes a last partial entry. */
  function Tail(pending: Bytes): seq<Chunk> {
    if pending == [] then [] else [Chunk(false, pending)]
  }

  /** Everything the splitter emits for a stream read in these pieces. */
  function Split(pieces: seq<Bytes>): seq<Chunk> {
    var (chunks, left) := Feed([], pieces);
    chunks + Tail(left)
  }

  lemma {:induction false} FeedConcat(pending: Bytes, a: seq<Bytes>, b: seq<Bytes>)
    ensures
      var (chunks, left) := Feed(pending, a);
      var (more, last) := Feed(left, b);
      Feed(pending, a + b) == (chunks + more, last)
    decreases |a|
  {
    if a == [] {
      assert a + b == b;
      assert [] + Feed(pending, b).0 == Feed(pending, b).0;
    } else {
      assert (a + b)[1..] == a[1..] + b;
      var (chunks, left) := Drain(pending + a[0]);
      FeedConcat(left, a[1..], b);
      var (more, mid) := Feed(left, a[1..]);
      ConcatAssoc(chunks, more, Feed(mid, b).0);
    }
  }

  // ----- nothing is lost, whatever the reads -----

  lemma {:induction false} NextChunkReassembles(pending: Bytes)
    requires NextChunk(pending).Some?
    ensures
      var (chunk, rest) := NextChunk(pending).value;
      Reassemble([chunk]) + rest == pending
  {
  }

  lemma {:induction false} DrainReassembles(pending: Bytes)
    ensures Reassemble(Drain(pending).0) + Drain(pending).1 == pending
    decreases |pending|
  {
    match NextChunk(pending)
    case None =>
    case Some((chunk, rest)) =>
      NextChunkReassembles(pending);
      DrainReassembles(rest);
      var (chunks, left) := Drain(rest);
      ReassembleConcat([chunk], chunks);
      ConcatAssoc(Reassemble([chunk]), Reassemble(chunks), left);
  }

  lemma {:induction false} FeedReassembles(pending: Bytes, pieces: seq<Bytes>)
    ensures Reassemble(Feed(pending, pieces).0) + Feed(pending, pieces).1 == pending + Flatten(pieces)
    decreases |pieces|
  {
    if pieces == [] {
    } else {
      var (chunks, left) := Drain(pending + pieces[0]);
      DrainReassembles(pending + pieces[0]);
      FeedReassembles(left, pieces[1..]);
      var (more, last) := Feed(left, pieces[1..]);
      ReassembleConcat(chunks, more);
      ConcatAssoc(Reassemble(chunks), Reassemble(more), last);
      ConcatAssoc(Reassemble(chunks), left, Flatten(pieces[1..]));
      ConcatAssoc(pending, pieces[0], Flatten(pieces[1..]));
    }
  }

  /** Reassembling what the splitter emitted gives back the stream's bytes, for every cutting into reads. */
  lemma {:induction false} SplitReassembles(pieces: seq<Bytes>)
    ensures Reassemble(Split(pieces)) == Flatten(pieces)
  {
    var (chunks, left) := Feed([], pieces);
    FeedReassembles([], pieces);
    ReassembleConcat(chunks, Tail(left));
    assert Reassemble([]) == [];
    assert Reassemble(Tail(left)) == left;
  }

  // ----- the shape of what is emitted -----

  /** No entry is longer than the cap or holds a newline; a partial one that the inner loop cuts is exactly the cap. */
  predicate CutByLoop(chunk: Chunk) {
    && |chunk.content| <= MAX_LINE
    && NEWLINE !in chunk.content
    && (chunk.full || |chunk.content| == MAX_LINE)
  }

  lemma {:induction false} NextChunkShape(pending: Bytes)
    requires NextChunk(pending).Some?
    ensures CutByLoop(NextChunk(pending).value.0)
  {
  }

  lemma {:induction false} DrainShape(pending: Bytes)
    ensures forall c :: c in Drain(pending).0 ==> CutByLoop(c)
    decreases |pending|
  {
    match NextChunk(pending)
    case None =>
    case Some((chunk, rest)) =>
      NextChunkShape(pending);
      DrainShape(rest);
  }

  lemma {:induction false} FeedShape(pending: Bytes, pieces: seq<Bytes>)
    requires NextChunk(pending).None?
    ensures forall c :: c in Feed(pending, pieces).0 ==> CutByLoop(c)
    ensures NextChunk(Feed(pending, pieces).1).None?
    decreases |pieces|
  {
    if pieces == [] {
    } else {
      DrainShape(pending + pieces[0]);
      FeedShape(Drain(pending + pieces[0]).1, pieces[1..]);
    }
  }

  /** Every entry but possibly the last obeys the loop's rule; the last may be a shorter, nonempty partial one. */
  lemma {:induction false} SplitShape(pieces: seq<Bytes>)
    ensures forall i :: 0 <= i < |Split(pieces)| - 1 ==> CutByLoop(Split(pieces)[i])
    ensures forall c :: c in Split(pieces) ==> |c.content| <= 8192 && 10 !in c.content
    ensures forall i :: 0 <= i < |Split(pieces)| - 1 && !Split(pieces)[i].full ==> |Split(pieces)[i].content| == 8192
    ensures Split(pieces) != [] ==>
              var last := Split(pieces)[|Split(pieces)| - 1];
              CutByLoop(last) || (!last.full && 0 < |last.content| < 8192)
  {
    FeedShape([], pieces);
    var (chunks, left) := Feed([], pieces);
    assert forall i :: 0 <= i < |chunks| ==> chunks[i] in chunks;
  }

  /** The buffer never grows past one byte less than the cap plus one full read. */
  lemma {:induction false} PendingBounded(pieces: seq<Bytes>, i: nat)
    requires i < |pieces| && |pieces[i]| <= 4096
    ensures 10 !in Feed([], pieces[..i]).1 && |Feed([], pieces[..i]).1| <= 8191
    ensures |Feed([], pieces[..i]).1 + pieces[i]| <= 8191 + 4096
  {
    FeedShape([], pieces[..i]);
  }

  // ----- the splitter, as the loop it is -----

  /** What one `read` on the pipe can return. */
  datatype ReadResult = Data(data: Bytes) | Interrupted | Eof | Failed

  /** The data the loop consumes: it skips interruptions and stops at end of file or at any other error. */
  function PiecesRead(results: seq<ReadResult>): seq<Bytes> {
    if results == [] then []
    else match results[0]
         case Data(data) => [data] + PiecesRead(results[1..])
         case Interrupted => PiecesRead(results[1..])
         case Eof => []
         case Failed => []
  }

  /** Interruptions do not count. */
  lemma {:induction false} InterruptedSkipped(before: seq<ReadResult>, after: seq<ReadResult>)
    ensures PiecesRead(before + ([Interrupted] + after)) == PiecesRead(before + after)
  {
    if before == [] {
      assert [] + ([Interrupted] + after) == [Interrupted] + after && [] + after == after;
      assert ([Interrupted] + after)[1..] == after;
    } else {
      assert (before + ([Interrupted] + after))[1..] == before[1..] + ([Interrupted] + after);
      assert (before + after)[1..] == before[1..] + after;
      InterruptedSkipped(before[1..], after);
    }
  }

  /** Nothing is read after end of file or another error. */
  lemma {:induction false} StopsAtEnd(before: seq<ReadResult>, last: ReadResult, after: seq<ReadResult>)
    requires last.Eof? || last.Failed?
    ensures PiecesRead(before + ([last] + after)) == PiecesRead(before)
  {
    if before == [] {
      assert before + ([last] + after) == [last] + after;
    } else {
      assert (before + ([last] + after))[1..] == before[1..] + ([last] + after);
      StopsAtEnd(before[1..], last, after);
    }
  }

  /** Of reads that all give data, every one is used, in order. */
  lemma {:induction false} EveryReadUsed(results: seq<ReadResult>)
    requires forall r :: r in results ==> r.Data?
    ensures |PiecesRead(results)| == |results|
    ensures forall i :: 0 <= i < |results| ==> results[i].Data? && PiecesRead(results)[i] == results[i].data
  {
    if results == [] {
    } else {
      assert results[0] in results;
      EveryReadUsed(results[1..]);
    }
  }

  /** Puts the clock's successive readings, from the `k`-th on, on a stream's chunks. */
  function Stamp(chunks: seq<Chunk>, stream: Stream, clock: nat -> Bytes, k: nat): seq<Line>
    decreases |chunks|
  {
    if chunks == [] then [] else [Line(clock(k), stream, chunks[0])] + Stamp(chunks[1..], stream, clock, k + 1)
  }

  /** The `i`-th line carries the `i`-th chunk, the stream and the `i`-th reading. */
  lemma {:induction false} StampedAt(chunks: seq<Chunk>, stream: Stream, clock: nat -> Bytes, k: nat, i: nat)
    requires i < |chunks|
    ensures |Stamp(chunks, stream, clock, k)| == |chunks|
    ensures Stamp(chunks, stream, clock, k)[i] == Line(clock(k + i), stream, chunks[i])
    decreases |chunks|
  {
    if |chunks| == 1 {
      assert Stamp(chunks[1..], stream, clock, k + 1) == [];
    } else {
      StampedAt(chunks[1..], stream, clock, k + 1, if i == 0 then 0 else i - 1);
    }
  }

  lemma {:induction false} StampSnoc(chunks: seq<Chunk>, chunk: Chunk, stream: Stream, clock: nat -> Bytes, k: nat)
    ensures Stamp(chunks + [chunk], stream, clock, k)
         == Stamp(chunks, stream, clock, k) + [Line(clock(k + |chunks|), stream, chunk)]
    decreases |chunks|
  {
    if chunks == [] {
    } else {
      assert (chunks + [chunk])[1..] == chunks[1..] + [chunk];
      StampSnoc(chunks[1..], chunk, stream, clock, k + 1);
    }
  }

  /** The log file, which a writer only appends whole lines to while it holds the lock. */
  class LogFile {
    var data: Bytes
    ghost var lines: seq<Line>

    ghost predicate Valid()
      reads this
    {
      data == FormatAll(lines)
    }

    constructor ()
      ensures Valid() && lines == []
    {
      data, lines := [], [];
    }

    method WriteLine(timestamp: Bytes, stream: Stream, full: bool, content: Bytes)
      requires Valid()
      modifies this
      ensures Valid()
      ensures lines == old(lines) + [Line(timestamp, stream, Chunk(full, content))]
      ensures data == old(data) + FormatLine(Line(timestamp, stream, Chunk(full, content)))
    {
      var line := Line(timestamp, stream, Chunk(full, content));
      FormatAllConcat(lines, [line]);
      assert FormatAll([line]) == FormatLine(line) + FormatAll([line][1..]);
      data := data + FormatLine(line);
      lines := lines + [line];
    }
  }

  lemma {:induction false} EmitStep(pending: Bytes, done: seq<Chunk>, stream: Stream, clock: nat -> Bytes,
                                    before: seq<Line>)
    requires NextChunk(pending).Some?
    ensures
      var (chunk, rest) := NextChunk(pending).value;
      && Drain(pending).1 == Drain(rest).1
      && done + Drain(pending).0 == (done + [chunk]) + Drain(rest).0
      && (before + Stamp(done, stream, clock, 0)) + [Line(clock(|done|), stream, chunk)]
         == before + Stamp(done + [chunk], stream, clock, 0)
  {
    var (chunk, rest) := NextChunk(pending).value;
    ConcatAssoc(done, [chunk], Drain(rest).0);
    StampSnoc(done, chunk, stream, clock, 0);
    ConcatAssoc(before, Stamp(done, stream, clock, 0), [Line(clock(|done|), stream, chunk)]);
  }

  lemma {:induction false} TailLines(lines: seq<Line>, before: seq<Line>, done: seq<Chunk>, pending: Bytes,
                                     stream: Stream,
                  clock: nat -> Bytes)
    requires lines == before + Stamp(done, stream, clock, 0)
    ensures before + Stamp(done + Tail(pending), stream, clock, 0)
         == if pending == [] then lines else lines + [Line(clock(|done|), stream, Chunk(false, pending))]
  {
    if pending == [] {
      assert done + Tail(pending) == done;
    } else {
      StampSnoc(done, Chunk(false, pending), stream, clock, 0);
      ConcatAssoc(before, Stamp(done, stream, clock, 0), [Line(clock(|done|), stream, Chunk(false, pending))]);
    }
  }

  /** The inner loop: emits every entry that can be cut from `buffer`, and returns what stays pending. */
  method EmitEntries(buffer: Bytes, stream: Stream, clock: nat -> Bytes, file: LogFile, ghost done: seq<Chunk>,
                     count: nat, ghost before: seq<Line>)
    returns (pending: Bytes, emitted: nat)
    requires file.Valid() && count == |done|
    requires file.lines == before + Stamp(done, stream, clock, 0)
    modifies file
    ensures file.Valid() && pending == Drain(buffer).1 && emitted == |done + Drain(buffer).0|
    ensures file.lines == before + Stamp(done + Drain(buffer).0, stream, clock, 0)
  {
    pending, emitted := buffer, count;
    ghost var chunks := done;
    ghost var goal, left := done + Drain(buffer).0, Drain(buffer).1;
    while true
      invariant file.Valid() && emitted == |chunks|
      invariant file.lines == before + Stamp(chunks, stream, clock, 0)
      invariant goal == chunks + Drain(pending).0
      invariant left == Drain(pending).1
      decreases |pending|
    {
      ghost var next := NextChunk(pending);
      if next.Some? {
        EmitStep(pending, chunks, stream, clock, before);
      }
      var at := IndexOf(pending, NEWLINE);
      if at < |pending| && at <= MAX_LINE {
        var rest := pending[at + 1..];
        pending := pending[..at];
        file.WriteLine(clock(emitted), stream, true, pending);
        chunks := chunks + [Chunk(true, pending)];
        emitted := emitted + 1;
        pending := rest;
      } else if |pending| >= MAX_LINE {
        var rest := pending[MAX_LINE..];
        pending := pending[..MAX_LINE];
        file.WriteLine(clock(emitted), stream, false, pending);
        chunks := chunks + [Chunk(false, pending)];
        emitted := emitted + 1;
        pending := rest;
      } else {
        break;
      }
      assert pending == next.value.1;
    }
    assert chunks + [] == chunks;
  }

  /** With `chunks` out and `pending` held back, the pieces still to come complete what all pieces give. */
  predicate Fed(all: seq<Bytes>, chunks: seq<Chunk>, pending: Bytes, later: seq<Bytes>) {
    Feed([], all) == (chunks + Feed(pending, later).0, Feed(pending, later).1)
  }

  lemma {:induction false} FedAtStart(all: seq<Bytes>)
    ensures Fed(all, [], [], all)
  {
    assert [] + Feed([], all).0 == Feed([], all).0;
  }

  lemma {:induction false} FedNext(all: seq<Bytes>, chunks: seq<Chunk>, pending: Bytes, later: seq<Bytes>)
    requires later != [] && Fed(all, chunks, pending, later)
    ensures
      var (more, left) := Drain(pending + later[0]);
      Fed(all, chunks + more, left, later[1..])
  {
    var (more, left) := Drain(pending + later[0]);
    ConcatAssoc(chunks, more, Feed(left, later[1..]).0);
  }

  lemma {:induction false} FedToEnd(all: seq<Bytes>, chunks: seq<Chunk>, pending: Bytes)
    requires Fed(all, chunks, pending, [])
    ensures Split(all) == chunks + Tail(pending)
  {
  }

  method CopyStreamAsCri(results: seq<ReadResult>, stream: Stream, clock: nat -> Bytes, file: LogFile)
    requires forall r :: r in results && r.Data? ==> 0 < |r.data| <= 4096
    requires file.Valid()
    modifies file
    ensures file.Valid()
    ensures file.lines == old(file.lines) + Stamp(Split(PiecesRead(results)), stream, clock, 0)
  {
    var pending: Bytes := [];
    var emitted: nat := 0;
    var i := 0;
    ghost var chunks: seq<Chunk> := [];
    ghost var all := PiecesRead(results);
    ghost var later := all;
    assert results[0..] == results;
    FedAtStart(all);
    while i < |results|
      invariant i <= |results|
      invariant file.Valid() && emitted == |chunks|
      invariant file.lines == old(file.lines) + Stamp(chunks, stream, clock, 0)
      invariant NEWLINE !in pending && |pending| < MAX_LINE
      invariant later == PiecesRead(results[i..])
      invariant Fed(all, chunks, pending, later)
    {
      assert results[i..][1..] == results[i + 1..];
      match results[i] {
        case Interrupted =>
          i := i + 1;
        case Eof =>
          break;
        case Failed =>
          break;
        case Data(data) =>
          assert data == results[i].data;
          ghost var held := pending;
          var buffer := pending + data;
          assert |buffer| <= MAX_LINE - 1 + READ_SIZE;
          pending, emitted := EmitEntries(buffer, stream, clock, file, chunks, emitted, old(file.lines));
          FedNext(all, chunks, held, later);
          later := later[1..];
          chunks := chunks + Drain(buffer).0;
          i := i + 1;
      }
    }
    assert later == [];
    ghost var stamped := file.lines;
    TailLines(stamped, old(file.lines), chunks, pending, stream, clock);
    FedToEnd(all, chunks, pending);
    if pending != [] {
      file.WriteLine(clock(emitted), stream, false, pending);
    }
  }
}
