/**
  * The logger process as a step system: two stream writers and the reopen listener share one file handle
  * behind a lock, while the log's owner may rename the file away at any moment.
  */
module CriLogger {
  import opened Seqs
  import opened ByteStrings
  import opened CriLog

  // ----- files and handles -----

  /** An open handle writes at its own offset, or at the end of the file when it was opened for appending. */
  datatype Handle = Handle(file: nat, offset: nat, append: bool)

  /** A `write_all` of `text` through an offset handle replaces what is there and extends the file. */
  function WriteAt(was: Bytes, offset: nat, text: Bytes): Bytes
    requires offset <= |was|
  {
    was[..offset] + text + (if offset + |text| <= |was| then was[offset + |text|..] else [])
  }

  // ----- the state -----

  /** A writer: the bytes it holds back, the pieces it has read, and whether it has seen end of file. */
  datatype Writer = Writer(pending: Bytes, pieces: seq<Bytes>, done: bool)

  /**
    * `files` lists the contents of every log file in the order they were first opened; `named` is the one the
    * log path names now, if any; `reopened` is a handle the listener has opened but not yet put in place.
    * `emitted` is the history of lines written.
    */
  datatype State = State(
    out: Writer,
    err: Writer,
    files: seq<Bytes>,
    named: Option<nat>,
    handle: Handle,
    reopened: Option<Handle>,
    emitted: seq<Line>)

  function WriterOf(s: State, stream: Stream): Writer {
    if stream == Stdout then s.out else s.err
  }

  function SetWriter(s: State, stream: Stream, w: Writer): State {
    if stream == Stdout then s.(out := w) else s.(err := w)
  }

  predicate GoodTimestamp(timestamp: Bytes) {
    SPACE !in timestamp && NEWLINE !in timestamp
  }

  /** The log file is created (truncated) and both pipes are still unread. */
  function Init(): State {
    State(Writer([], [], false), Writer([], [], false), [[]], Some(0), Handle(0, 0, false), None, [])
  }

  // ----- the steps -----

  datatype Step =
    | Read(stream: Stream, data: Bytes)
    | Emit(stream: Stream, timestamp: Bytes)
    | Finish(stream: Stream, timestamp: Bytes)
    | Rename
    | Reopen
    | Swap

  predicate HandleInRange(s: State) {
    s.handle.file < |s.files| && s.handle.offset <= |s.files[s.handle.file]|
  }

  /** Writes one line through the shared handle, under the lock. */
  function WriteLine(s: State, line: Line): State
    requires HandleInRange(s)
  {
    var h, text := s.handle, FormatLine(line);
    var was := s.files[h.file];
    var at := if h.append then |was| else h.offset;
    s.(files := s.files[h.file := WriteAt(was, at, text)],
       handle := h.(offset := at + |text|),
       emitted := s.emitted + [line])
  }

  /** Opening for append at the log path: the file named now, or a new one when it has been renamed away. */
  function OpenAppend(s: State): State {
    match s.named
    case Some(f) => s.(reopened := Some(Handle(f, 0, true)))
    case None => s.(files := s.files + [[]], named := Some(|s.files|), reopened := Some(Handle(|s.files|, 0, true)))
  }

  predicate Enabled(s: State, step: Step) {
    HandleInRange(s) &&
    match step
    case Read(stream, data) =>
      var w := WriterOf(s, stream);
      !w.done && NextChunk(w.pending).None? && 0 < |data| <= READ_SIZE
    case Emit(stream, timestamp) =>
      var w := WriterOf(s, stream);
      !w.done && NextChunk(w.pending).Some? && GoodTimestamp(timestamp)
    case Finish(stream, timestamp) =>
      var w := WriterOf(s, stream);
      !w.done && NextChunk(w.pending).None? && GoodTimestamp(timestamp)
    case Rename => s.named.Some?
    case Reopen => s.reopened.None?
    case Swap => s.reopened.Some?
  }

  function Apply(s: State, step: Step): State
    requires Enabled(s, step)
  {
    match step
    case Read(stream, data) =>
      var w := WriterOf(s, stream);
      SetWriter(s, stream, w.(pending := w.pending + data, pieces := w.pieces + [data]))
    case Emit(stream, timestamp) =>
      var w := WriterOf(s, stream);
      var (chunk, rest) := NextChunk(w.pending).value;
      SetWriter(WriteLine(s, Line(timestamp, stream, chunk)), stream, w.(pending := rest))
    case Finish(stream, timestamp) =>
      var w := WriterOf(s, stream);
      var s' := if w.pending == [] then s else WriteLine(s, Line(timestamp, stream, Chunk(false, w.pending)));
      SetWriter(s', stream, w.(pending := [], done := true))
    case Rename => s.(named := None)
    case Reopen => OpenAppend(s)
    case Swap => s.(handle := s.reopened.value, reopened := None)
  }

  /** The state after a run of steps, each of which was possible when it was taken. */
  ghost predicate Runs(s: State, steps: seq<Step>, t: State)
    decreases |steps|
  {
    if steps == [] then s == t
    else Enabled(s, steps[0]) && Runs(Apply(s, steps[0]), steps[1..], t)
  }

  // ----- the invariant -----

  /** Everything after the handle's file is empty, and the handle stands at the end of its file. */
  predicate FilesInv(s: State) {
    var last := |s.files| - 1;
    && 0 <= last && s.handle.file <= last
    && (forall i :: s.handle.file < i <= last ==> s.files[i] == [])
    && (if s.handle.append then s.handle.offset <= |s.files[s.handle.file]|
        else s.handle.offset == |s.files[s.handle.file]|)
    && (s.named.Some? ==> s.named.value == last)
    && (s.reopened.Some? ==> s.reopened.value == Handle(last, 0, true))
    && (s.reopened.None? ==> s.handle.file == last)
  }

  /** What one stream has had emitted so far is what the splitter alone makes of its reads. */
  predicate StreamInv(s: State, stream: Stream) {
    var w := WriterOf(s, stream);
    var chunks := ChunksOf(s.emitted, stream);
    if w.done then chunks == Split(w.pieces)
    else Feed([], w.pieces) == (chunks + Drain(w.pending).0, Drain(w.pending).1)
  }

  /** No file ends in the middle of a line. */
  ghost predicate WholeLines(file: Bytes) {
    exists lines :: file == FormatAll(lines) && forall l :: l in lines ==> WellFormed(l)
  }

  /** The files, in the order they were opened, hold the emitted lines. */
  ghost predicate LinesInv(files: seq<Bytes>, emitted: seq<Line>) {
    && (forall i :: 0 <= i < |files| ==> WholeLines(files[i]))
    && Flatten(files) == FormatAll(emitted)
    && (forall l :: l in emitted ==> WellFormed(l))
  }

  ghost predicate LogInv(s: State) {
    FilesInv(s) && LinesInv(s.files, s.emitted)
  }

  ghost predicate Inv(s: State) {
    && LogInv(s)
    && StreamInv(s, Stdout) && StreamInv(s, Stderr)
  }

  lemma {:induction false} InitInv()
    ensures Inv(Init())
  {
  }

  // ----- writing -----

  lemma {:induction false} FlattenEmpty(ss: seq<Bytes>)
    requires forall i :: 0 <= i < |ss| ==> ss[i] == []
    ensures Flatten(ss) == []
  {
    if ss == [] {
    } else {
      FlattenEmpty(ss[1..]);
    }
  }

  /** Appending to a file followed only by empty ones appends to the whole. */
  lemma {:induction false} FlattenUpdate(files: seq<Bytes>, f: nat, text: Bytes)
    requires f < |files| && forall i :: f < i < |files| ==> files[i] == []
    ensures Flatten(files[f := files[f] + text]) == Flatten(files) + text
  {
    var before, after := files[..f], files[f + 1..];
    FlattenEmpty(after);
    assert files == before + ([files[f]] + after);
    assert files[f := files[f] + text] == before + ([files[f] + text] + after);
    FlattenConcat(before, [files[f]] + after);
    FlattenConcat(before, [files[f] + text] + after);
    assert ([files[f]] + after)[1..] == after;
    assert ([files[f] + text] + after)[1..] == after;
    assert Flatten([files[f]] + after) == files[f];
    assert Flatten([files[f] + text] + after) == files[f] + text;
    ConcatAssoc(Flatten(before), files[f], text);
  }

  lemma {:induction false} FormatOne(line: Line)
    ensures FormatAll([line]) == FormatLine(line)
  {
  }

  lemma {:induction false} WholeLinesSnoc(file: Bytes, line: Line)
    requires WholeLines(file) && WellFormed(line)
    ensures WholeLines(file + FormatLine(line))
  {
    var lines :| file == FormatAll(lines) && forall l :: l in lines ==> WellFormed(l);
    FormatAllConcat(lines, [line]);
    FormatOne(line);
    assert file + FormatLine(line) == FormatAll(lines + [line]);
  }

  lemma {:induction false} WriteAtEnd(was: Bytes, text: Bytes)
    ensures WriteAt(was, |was|, text) == was + text
  {
  }

  lemma {:induction false} AppendedLine(files: seq<Bytes>, f: nat, emitted: seq<Line>, line: Line)
    requires LinesInv(files, emitted) && WellFormed(line)
    requires f < |files| && forall i :: f < i < |files| ==> files[i] == []
    ensures LinesInv(files[f := files[f] + FormatLine(line)], emitted + [line])
  {
    FlattenUpdate(files, f, FormatLine(line));
    FormatAllConcat(emitted, [line]);
    FormatOne(line);
    WholeLinesSnoc(files[f], line);
  }

  lemma {:induction false} WriteLineInv(s: State, line: Line)
    requires LogInv(s) && HandleInRange(s) && WellFormed(line)
    ensures LogInv(WriteLine(s, line))
  {
    var was, text := s.files[s.handle.file], FormatLine(line);
    WriteAtEnd(was, text);
    AppendedLine(s.files, s.handle.file, s.emitted, line);
  }

  lemma {:induction false} ChunksSnoc(lines: seq<Line>, line: Line, stream: Stream)
    ensures ChunksOf(lines + [line], stream)
         == if line.stream == stream then ChunksOf(lines, stream) + [line.chunk] else ChunksOf(lines, stream)
  {
    ChunksOfConcat(lines, [line], stream);
    assert ChunksOf([line][1..], stream) == [];
  }

  // ----- every step keeps the invariant -----

  lemma {:induction false} FeedSnoc(pieces: seq<Bytes>, data: Bytes)
    ensures
      var (chunks, pending) := Feed([], pieces);
      Feed([], pieces + [data]) == (chunks + Drain(pending + data).0, Drain(pending + data).1)
  {
    var pending := Feed([], pieces).1;
    FeedConcat([], pieces, [data]);
    var (chunks, left) := Drain(pending + data);
    assert [data][1..] == [];
    assert Feed(left, []) == ([], left);
    assert chunks + [] == chunks;
  }

  lemma {:induction false} ReadKeeps(s: State, step: Step)
    requires step.Read? && Inv(s) && Enabled(s, step)
    ensures Inv(Apply(s, step))
  {
    var w := WriterOf(s, step.stream);
    FeedSnoc(w.pieces, step.data);
    assert ChunksOf(s.emitted, step.stream) + [] == ChunksOf(s.emitted, step.stream);
    assert Feed([], w.pieces).1 == w.pending;
  }

  /** The stream that writes a line moves one chunk from what it still holds to what it has emitted. */
  lemma {:induction false} WrittenKeeps(s: State, line: Line, w: Writer, t: State)
    requires Inv(s) && HandleInRange(s) && WellFormed(line)
    requires t == SetWriter(WriteLine(s, line), line.stream, w)
    requires StreamInv(t, line.stream)
    ensures Inv(t)
  {
    WriteLineInv(s, line);
    ChunksSnoc(s.emitted, line, Stdout);
    ChunksSnoc(s.emitted, line, Stderr);
  }

  lemma {:induction false} EmitKeeps(s: State, step: Step)
    requires step.Emit? && Inv(s) && Enabled(s, step)
    ensures Inv(Apply(s, step))
  {
    var w := WriterOf(s, step.stream);
    var (chunk, rest) := NextChunk(w.pending).value;
    var line := Line(step.timestamp, step.stream, chunk);
    NextChunkShape(w.pending);
    ChunksSnoc(s.emitted, line, step.stream);
    ConcatAssoc(ChunksOf(s.emitted, step.stream), [chunk], Drain(rest).0);
    WrittenKeeps(s, line, w.(pending := rest), Apply(s, step));
  }

  lemma {:induction false} FinishedStream(s: State, stream: Stream)
    requires Inv(s) && !WriterOf(s, stream).done && NextChunk(WriterOf(s, stream).pending).None?
    ensures Split(WriterOf(s, stream).pieces) == ChunksOf(s.emitted, stream) + Tail(WriterOf(s, stream).pending)
  {
  }

  lemma {:induction false} WriterKeeps(s: State, stream: Stream, w: Writer)
    requires Inv(s) && StreamInv(SetWriter(s, stream, w), stream)
    ensures Inv(SetWriter(s, stream, w))
  {
  }

  lemma {:induction false} FinishKeeps(s: State, step: Step)
    requires step.Finish? && Inv(s) && Enabled(s, step)
    ensures Inv(Apply(s, step))
  {
    var w := WriterOf(s, step.stream);
    FinishedStream(s, step.stream);
    if w.pending == [] {
      assert ChunksOf(s.emitted, step.stream) + [] == ChunksOf(s.emitted, step.stream);
      WriterKeeps(s, step.stream, w.(pending := [], done := true));
    } else {
      LastLineKeeps(s, step);
    }
  }

  lemma {:induction false} LastLineKeeps(s: State, step: Step)
    requires step.Finish? && Inv(s) && Enabled(s, step) && WriterOf(s, step.stream).pending != []
    ensures Inv(Apply(s, step))
  {
    var w := WriterOf(s, step.stream);
    var line := Line(step.timestamp, step.stream, Chunk(false, w.pending));
    FinishedStream(s, step.stream);
    ChunksSnoc(s.emitted, line, step.stream);
    WrittenKeeps(s, line, w.(pending := [], done := true), Apply(s, step));
  }

  /** Renaming, opening the log path again and putting the new handle in place lose and reorder nothing. */
  lemma {:induction false} RotationKeeps(s: State, step: Step)
    requires (step.Rename? || step.Reopen? || step.Swap?) && Inv(s) && Enabled(s, step)
    ensures Inv(Apply(s, step))
    ensures Apply(s, step).emitted == s.emitted
    ensures Flatten(Apply(s, step).files) == Flatten(s.files)
  {
    if step.Reopen? && s.named.None? {
      FlattenSnoc(s.files, []);
      assert FormatAll([]) == [];
    }
  }

  lemma {:induction false} StepKeeps(s: State, step: Step)
    requires Inv(s) && Enabled(s, step)
    ensures Inv(Apply(s, step))
  {
    match step
    case Read(_, _) => ReadKeeps(s, step);
    case Emit(_, _) => EmitKeeps(s, step);
    case Finish(_, _) => FinishKeeps(s, step);
    case Rename => RotationKeeps(s, step);
    case Reopen => RotationKeeps(s, step);
    case Swap => RotationKeeps(s, step);
  }

  lemma {:induction false} RunKeeps(s: State, steps: seq<Step>, t: State)
    requires Inv(s) && Runs(s, steps, t)
    ensures Inv(t)
    decreases |steps|
  {
    if steps == [] {
    } else {
      StepKeeps(s, steps[0]);
      RunKeeps(Apply(s, steps[0]), steps[1..], t);
    }
  }

  // ----- what a reader of the files gets -----

  /**
    * In every run, at every moment: the files, taken in the order they were first opened, are the emitted lines,
    * each exactly once, whole and in the order of emission; no single file ends inside a line.
    */
  lemma {:induction false} FilesHoldEveryLineOnce(steps: seq<Step>, t: State)
    requires Runs(Init(), steps, t)
    ensures ParseLog(Flatten(t.files)) == Some(t.emitted)
    ensures forall i :: 0 <= i < |t.files| ==> ParseLog(t.files[i]).Some?
  {
    InitInv();
    RunKeeps(Init(), steps, t);
    ParseFormatted(t.emitted);
    forall i | 0 <= i < |t.files|
      ensures ParseLog(t.files[i]).Some?
    {
      var lines :| t.files[i] == FormatAll(lines) && forall l :: l in lines ==> WellFormed(l);
      ParseFormatted(lines);
    }
  }

  /** The bytes a stream's steps read, in order. */
  function InputOf(steps: seq<Step>, stream: Stream): Bytes {
    if steps == [] then []
    else ReadBy(steps[0], stream) + InputOf(steps[1..], stream)
  }

  function ReadBy(step: Step, stream: Stream): Bytes {
    if step.Read? && step.stream == stream then step.data else []
  }

  lemma {:induction false} PiecesAreInput(s: State, steps: seq<Step>, t: State, stream: Stream)
    requires Runs(s, steps, t)
    ensures Flatten(WriterOf(t, stream).pieces) == Flatten(WriterOf(s, stream).pieces) + InputOf(steps, stream)
    decreases |steps|
  {
    if steps == [] {
    } else {
      PiecesAreInput(Apply(s, steps[0]), steps[1..], t, stream);
      PiecesStep(s, steps[0], stream);
      ConcatAssoc(Flatten(WriterOf(s, stream).pieces), ReadBy(steps[0], stream), InputOf(steps[1..], stream));
    }
  }

  lemma {:induction false} PiecesStep(s: State, step: Step, stream: Stream)
    requires Enabled(s, step)
    ensures Flatten(WriterOf(Apply(s, step), stream).pieces) == Flatten(WriterOf(s, stream).pieces) + ReadBy(step, stream)
  {
    if step.Read? && step.stream == stream {
      FlattenSnoc(WriterOf(s, stream).pieces, step.data);
    }
  }

  /**
    * Once a stream's writer is done, parsing the log files, keeping that stream's entries and joining them gives
    * back exactly the bytes that arrived on its pipe: for every cutting of both pipes into reads, every
    * interleaving of the two writers, every clock, and every sequence of renames and reopenings in between. The
    * entries are those the splitter would have produced on its own.
    */
  lemma {:induction false} LogReassemblesEachStream(steps: seq<Step>, t: State, stream: Stream)
    requires Runs(Init(), steps, t) && WriterOf(t, stream).done
    ensures
      var parsed := ParseLog(Flatten(t.files));
      && parsed.Some?
      && Reassemble(ChunksOf(parsed.value, stream)) == InputOf(steps, stream)
      && ChunksOf(parsed.value, stream) == Split(WriterOf(t, stream).pieces)
  {
    FilesHoldEveryLineOnce(steps, t);
    InitInv();
    RunKeeps(Init(), steps, t);
    SplitReassembles(WriterOf(t, stream).pieces);
    PiecesAreInput(Init(), steps, t, stream);
  }
}
