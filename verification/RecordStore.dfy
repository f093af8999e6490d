/** The record store: one JSON file per record, listed newest first and looked up by ID prefix. */
module RecordStore {
  import opened Seqs
  import opened ByteStrings
  import opened Sorting

  type Id = Bytes

  /** A stored record; `payload` stands for everything but the two fields the store itself looks at. */
  datatype Record = Record(id: Id, createdAt: int, payload: Bytes)

  datatype Error = Malformed | Ambiguous

  datatype Result<+T> = Ok(value: T) | Err(error: Error)

  /** `.json` */
  const EXTENSION: Bytes := [46, 106, 115, 111, 110]

  function FileName(id: Id): Bytes {
    id + EXTENSION
  }

  /** `Path::extension` is `json`: a file called just `.json` has no extension. */
  predicate IsJson(name: Bytes) {
    |EXTENSION| < |name| && name[|name| - |EXTENSION|..] == EXTENSION
  }

  /** The directory: file names and what they parse to, `None` for bytes that are no record. */
  type Files = map<Bytes, Option<Record>>

  predicate Newer(a: Record, b: Record) {
    a.createdAt > b.createdAt || (a.createdAt == b.createdAt && BytesLess(a.id, b.id))
  }

  lemma {:induction false} NewerOrder()
    ensures StrictOrder(Newer)
  {
    forall a: Record
      ensures !Newer(a, a)
    {
      BytesLessIrreflexive(a.id);
    }
    forall a: Record, b: Record, c: Record | Newer(a, b) && Newer(b, c)
      ensures Newer(a, c)
    {
      if a.createdAt == b.createdAt == c.createdAt {
        BytesLessTransitive(a.id, b.id, c.id);
      }
    }
  }

  /** Every JSON file holds the record it is named after: what saving and removing keep. */
  ghost predicate Consistent(files: Files) {
    forall name :: name in files && IsJson(name) ==> files[name].Some? && name == FileName(files[name].value.id)
  }

  /** The records a directory holds. */
  ghost predicate Holds(files: Files, r: Record) {
    IsJson(FileName(r.id)) && FileName(r.id) in files && files[FileName(r.id)] == Some(r)
  }

  lemma {:induction false} FileNameInjective(a: Id, b: Id)
    requires FileName(a) == FileName(b)
    ensures a == b
  {
    assert a == FileName(a)[..|FileName(a)| - |EXTENSION|];
    assert b == FileName(b)[..|FileName(b)| - |EXTENSION|];
  }

  /** A directory listing, in whatever order: every file once. */
  ghost predicate Lists(files: Files, listing: seq<Bytes>) {
    && (forall name :: name in listing <==> name in files)
    && (forall i, j :: 0 <= i < j < |listing| ==> listing[i] != listing[j])
  }

  // ----- loading -----

  /** The records in listing order, or `None` if a JSON file does not parse. */
  function ReadAll(files: Files, listing: seq<Bytes>): Option<seq<Record>>
    requires forall name :: name in listing ==> name in files
  {
    if listing == [] then Some([]) else
    var others := ReadAll(files, listing[1..]);
    if !IsJson(listing[0]) then others
    else if files[listing[0]].None? then None
    else if others.None? then None
    else Some([files[listing[0]].value] + others.value)
  }

  lemma {:induction false} ReadAllRecords(files: Files, listing: seq<Bytes>)
    requires Consistent(files) && (forall name :: name in listing ==> name in files)
    requires forall i, j :: 0 <= i < j < |listing| ==> listing[i] != listing[j]
    ensures ReadAll(files, listing).Some?
    ensures
      var rs := ReadAll(files, listing).value;
      && (forall r :: r in rs <==> Holds(files, r) && FileName(r.id) in listing)
      && (forall i, j :: 0 <= i < j < |rs| ==> rs[i].id != rs[j].id)
  {
    if listing == [] {
    } else {
      ReadAllRecords(files, listing[1..]);
      var name := listing[0];
      assert listing == [name] + listing[1..];
      assert name in listing;
      var rest := ReadAll(files, listing[1..]).value;
      assert forall i :: 0 <= i < |rest| ==> rest[i] in rest;
      if IsJson(name) {
        var first := files[name].value;
        assert ReadAll(files, listing).value == [first] + rest;
      }
    }
  }

  method LoadAll(files: Files, listing: seq<Bytes>) returns (r: Result<seq<Record>>)
    requires Lists(files, listing)
    ensures r == LoadedFrom(files, listing)
  {
    var records: seq<Record> := [];
    ghost var goal := ReadAll(files, listing);
    var i := 0;
    assert listing[0..] == listing;
    assert goal.Some? ==> [] + goal.value == goal.value;
    while i < |listing|
      invariant i <= |listing|
      invariant
        var rest := ReadAll(files, listing[i..]);
        (goal.Some? <==> rest.Some?) && (goal.Some? ==> goal.value == records + rest.value)
    {
      assert listing[i..][0] == listing[i] && listing[i..][1..] == listing[i + 1..];
      var name := listing[i];
      assert name in listing;
      i := i + 1;
      if !IsJson(name) { continue; }
      if files[name].None? { return Err(Malformed); }
      ghost var rest := ReadAll(files, listing[i..]);
      if rest.Some? {
        ConcatAssoc(records, [files[name].value], rest.value);
      }
      records := records + [files[name].value];
    }
    assert records + [] == records;
    records := Sort(Newer, records);
    return Ok(records);
  }

  function LoadedFrom(files: Files, listing: seq<Bytes>): Result<seq<Record>>
    requires forall name :: name in listing ==> name in files
  {
    match ReadAll(files, listing)
    case None => Err(Malformed)
    case Some(rs) => Ok(Sort(Newer, rs))
  }

  /** The list a consistent directory stands for: all its records, newest first, ties by ID. */
  ghost predicate Listing(files: Files, rs: seq<Record>) {
    Ascending(Newer, rs) && forall r :: r in rs <==> Holds(files, r)
  }

  lemma {:induction false} LoadIsListing(files: Files, listing: seq<Bytes>)
    requires Consistent(files) && Lists(files, listing)
    ensures LoadedFrom(files, listing).Ok? && Listing(files, LoadedFrom(files, listing).value)
  {
    ReadAllRecords(files, listing);
    var rs := ReadAll(files, listing).value;
    NewerOrder();
    forall i, j | 0 <= i < j < |rs|
      ensures Newer(rs[i], rs[j]) || Newer(rs[j], rs[i])
    {
      BytesLessTotal(rs[i].id, rs[j].id);
    }
    SortAscending(Newer, rs);
    forall r
      ensures r in Sort(Newer, rs) <==> Holds(files, r)
    {
      InMultiset(Sort(Newer, rs), rs, r);
    }
  }

  // ----- newest first -----

  /** `a` is created no earlier than `b`; if at the same time, its ID is no larger, byte by byte. */
  predicate MayPrecede(a: Record, b: Record) {
    && a.createdAt >= b.createdAt
    && (a.createdAt == b.createdAt ==>
          a.id <= b.id || exists k :: 0 <= k < |a.id| && k < |b.id| && a.id[..k] == b.id[..k] && a.id[k] < b.id[k])
  }

  predicate NewestFirst(rs: seq<Record>) {
    forall i, j :: 0 <= i < j < |rs| ==> MayPrecede(rs[i], rs[j])
  }

  predicate NoneNewerLater(rs: seq<Record>) {
    forall i, j :: 0 <= i < j < |rs| ==> !Newer(rs[j], rs[i])
  }

  lemma {:induction false} InsertNewest(x: Record, rs: seq<Record>)
    requires NoneNewerLater(rs)
    ensures NoneNewerLater(Insert(Newer, x, rs))
  {
    if rs == [] {
    } else if Newer(rs[0], x) {
      var rest := Insert(Newer, x, rs[1..]);
      InsertNewest(x, rs[1..]);
      forall r | r in rest
        ensures !Newer(r, rs[0])
      {
        InMultiset(rest, [x] + rs[1..], r);
        NotBothNewer(rs[0], x);
      }
      FirstNewest(rs[0], rest);
    } else {
      forall r | r in rs
        ensures !Newer(r, x)
      {
        NotNewerTransitive(x, rs[0], r);
      }
      FirstNewest(x, rs);
    }
  }

  lemma {:induction false} FirstNewest(x: Record, rs: seq<Record>)
    requires NoneNewerLater(rs) && forall r :: r in rs ==> !Newer(r, x)
    ensures NoneNewerLater([x] + rs)
  {
    var all := [x] + rs;
    forall i, j | 0 <= i < j < |all|
      ensures !Newer(all[j], all[i])
    {
      assert all[j] == rs[j - 1] && rs[j - 1] in rs;
      if i > 0 {
        assert all[i] == rs[i - 1];
      }
    }
  }

  lemma {:induction false} NotBothNewer(a: Record, b: Record)
    requires Newer(a, b)
    ensures !Newer(b, a)
  {
    NewerOrder();
  }

  lemma {:induction false} NotNewerTransitive(a: Record, b: Record, c: Record)
    requires !Newer(b, a) && (b == c || !Newer(c, b))
    ensures !Newer(c, a)
  {
    if a.createdAt == b.createdAt == c.createdAt && b.id != a.id && c.id != b.id {
      BytesLessTotal(a.id, b.id);
      BytesLessTotal(b.id, c.id);
      BytesLessTransitive(a.id, b.id, c.id);
      if BytesLess(c.id, a.id) {
        BytesLessTransitive(a.id, c.id, a.id);
        BytesLessIrreflexive(a.id);
      }
    }
  }

  lemma {:induction false} SortNewest(rs: seq<Record>)
    ensures NoneNewerLater(Sort(Newer, rs))
  {
    if rs == [] {
    } else {
      SortNewest(rs[1..]);
      InsertNewest(rs[0], Sort(Newer, rs[1..]));
    }
  }

  lemma {:induction false} NotNewerMeans(a: Record, b: Record)
    requires !Newer(b, a)
    ensures MayPrecede(a, b)
  {
    if a.createdAt == b.createdAt && a.id != b.id {
      BytesLessTotal(a.id, b.id);
      BytesLessMeans(a.id, b.id);
    }
  }

  /** Whatever the directory and the order of its listing, a list that loads is newest first. */
  lemma {:induction false} LoadsNewestFirst(files: Files, listing: seq<Bytes>)
    requires forall name :: name in listing ==> name in files
    ensures LoadedFrom(files, listing).Ok? ==> NewestFirst(LoadedFrom(files, listing).value)
  {
    if ReadAll(files, listing).Some? {
      SortNewest(ReadAll(files, listing).value);
      var rs := LoadedFrom(files, listing).value;
      forall i, j | 0 <= i < j < |rs|
        ensures MayPrecede(rs[i], rs[j])
      {
        NotNewerMeans(rs[i], rs[j]);
      }
    }
  }

  /** What loads is what the files called `<something>.json` hold, and no other file is looked at. */
  lemma {:induction false} LoadsJsonFiles(files: Files, listing: seq<Bytes>, r: Record)
    requires (forall name :: name in listing ==> name in files) && LoadedFrom(files, listing).Ok?
    ensures r in LoadedFrom(files, listing).value
       <==> exists name :: name in listing && |name| > 5 && name[|name| - 5..] == [46, 106, 115, 111, 110]
                           && files[name] == Some(r)
  {
    InMultiset(Sort(Newer, ReadAll(files, listing).value), ReadAll(files, listing).value, r);
    ReadsJsonFiles(files, listing, r);
  }

  lemma {:induction false} ReadsJsonFiles(files: Files, listing: seq<Bytes>, r: Record)
    requires (forall name :: name in listing ==> name in files) && ReadAll(files, listing).Some?
    ensures r in ReadAll(files, listing).value
       <==> exists name :: name in listing && |name| > 5 && name[|name| - 5..] == [46, 106, 115, 111, 110]
                           && files[name] == Some(r)
  {
    if listing == [] {
    } else {
      FirstAndRest(listing);
      assert listing[0] in listing;
      ReadsJsonFiles(files, listing[1..], r);
    }
  }

  /** The order in which a consistent directory is listed does not matter. */
  lemma {:induction false} ConsistentOrderIrrelevant(files: Files, a: seq<Bytes>, b: seq<Bytes>)
    requires Consistent(files) && Lists(files, a) && Lists(files, b)
    ensures LoadedFrom(files, a) == LoadedFrom(files, b)
  {
    LoadIsListing(files, a);
    LoadIsListing(files, b);
    NewerOrder();
    AscendingUnique(Newer, LoadedFrom(files, a).value, LoadedFrom(files, b).value);
  }

  // ----- looking up by prefix -----

  predicate Matches(r: Record, prefix: Bytes) {
    prefix <= r.id
  }

  ghost predicate Match(files: Files, r: Record, prefix: Bytes) {
    Holds(files, r) && Matches(r, prefix)
  }

  /** The lookup's answer, said without a loop. */
  ghost predicate Answers(files: Files, prefix: Bytes, r: Result<Option<Record>>) {
    match r
    case Ok(None) => prefix == [] || forall x :: !Match(files, x, prefix)
    case Ok(Some(x)) => prefix != [] && Match(files, x, prefix) && forall y :: Match(files, y, prefix) ==> y == x
    case Err(error) => error == Ambiguous && prefix != []
                       && exists x, y :: Match(files, x, prefix) && Match(files, y, prefix) && x.id != y.id
  }

  /** No record matches, exactly one does, or the prefix is ambiguous. */
  ghost predicate OnlyMatch(records: seq<Record>, prefix: Bytes, r: Result<Option<Record>>) {
    match r
    case Ok(None) => forall k :: 0 <= k < |records| ==> !Matches(records[k], prefix)
    case Ok(Some(x)) =>
      exists k :: 0 <= k < |records| && records[k] == x && Matches(records[k], prefix)
                  && forall j :: 0 <= j < |records| && Matches(records[j], prefix) ==> j == k
    case Err(error) =>
      error == Ambiguous
      && exists j, k :: 0 <= j < k < |records| && Matches(records[j], prefix) && Matches(records[k], prefix)
  }

  /** The loop over the loaded records: remembers the first match and stops at a second one. */
  method PickOnly(records: seq<Record>, prefix: Bytes) returns (r: Result<Option<Record>>)
    ensures OnlyMatch(records, prefix, r)
  {
    var found: Option<Record> := None;
    ghost var at := 0;
    var i := 0;
    while i < |records|
      invariant i <= |records|
      invariant found.None? ==> forall k :: 0 <= k < i ==> !Matches(records[k], prefix)
      invariant found.Some? ==> 0 <= at < i && records[at] == found.value && Matches(records[at], prefix)
      invariant found.Some? ==> forall k :: 0 <= k < i && Matches(records[k], prefix) ==> k == at
    {
      if Matches(records[i], prefix) {
        if found.Some? {
          return Err(Ambiguous);
        }
        found, at := Some(records[i]), i;
      }
      i := i + 1;
    }
    return Ok(found);
  }

  /** An unreadable record file fails every lookup but that of the empty prefix. */
  method FindByIdPrefix(files: Files, listing: seq<Bytes>, prefix: Bytes) returns (r: Result<Option<Record>>)
    requires Lists(files, listing)
    ensures prefix == [] ==> r == Ok(None)
    ensures prefix != [] ==>
              match LoadedFrom(files, listing)
              case Err(error) => r == Err(error)
              case Ok(records) => OnlyMatch(records, prefix, r)
    ensures Consistent(files) ==> Answers(files, prefix, r)
  {
    if prefix == [] { return Ok(None); }
    var loaded := LoadAll(files, listing);
    if loaded.Err? {
      r := Err(loaded.error);
    } else {
      r := PickOnly(loaded.value, prefix);
    }
    if Consistent(files) {
      LoadIsListing(files, listing);
      OnlyMatchAnswers(files, loaded.value, prefix, r);
    }
  }

  lemma {:induction false} OnlyMatchAnswers(files: Files, records: seq<Record>, prefix: Bytes,
                                            r: Result<Option<Record>>)
    requires Listing(files, records) && OnlyMatch(records, prefix, r) && prefix != []
    ensures Answers(files, prefix, r)
  {
    if r.Err? {
      var j, k :| 0 <= j < k < |records| && Matches(records[j], prefix) && Matches(records[k], prefix);
      DifferentIds(files, records, j, k);
      assert records[j] in records && records[k] in records;
      assert Match(files, records[j], prefix) && Match(files, records[k], prefix);
    } else {
      forall x | Match(files, x, prefix)
        ensures x in records
      {
      }
    }
  }

  /** Two entries of a listing are records with different IDs. */
  lemma {:induction false} DifferentIds(files: Files, records: seq<Record>, j: nat, k: nat)
    requires Listing(files, records) && j < k < |records|
    ensures records[j].id != records[k].id
  {
    NewerOrder();
    assert records[j] in records && records[k] in records;
    assert Newer(records[j], records[k]);
  }

  /** There is one answer for each directory and prefix. */
  lemma {:induction false} AnswerUnique(files: Files, prefix: Bytes, r: Result<Option<Record>>,
                                        q: Result<Option<Record>>)
    requires Answers(files, prefix, r) && Answers(files, prefix, q)
    ensures r == q
  {
  }

  /** Looking a stored record up by its full ID finds it, unless another stored ID extends that one. */
  lemma {:induction false} FullIdLookup(files: Files, x: Record, r: Result<Option<Record>>)
    requires Holds(files, x) && Answers(files, x.id, r)
    ensures r == (if exists y :: Holds(files, y) && y.id != x.id && x.id <= y.id then Err(Ambiguous) else Ok(Some(x)))
  {
    JsonName(x.id);
    assert Match(files, x, x.id);
    if y :| Holds(files, y) && y.id != x.id && x.id <= y.id {
      assert Match(files, y, x.id);
      AnswerUnique(files, x.id, r, Err(Ambiguous));
    } else {
      assert forall y :: Match(files, y, x.id) ==> y.id == x.id;
      AnswerUnique(files, x.id, r, Ok(Some(x)));
    }
  }

  // ----- saving and removing -----

  datatype Op = Save(record: Record) | Remove(id: Id)

  function Apply(files: Files, op: Op): Files {
    match op
    case Save(r) => files[FileName(r.id) := Some(r)]
    case Remove(id) => files - {FileName(id)}
  }

  function ApplyAll(files: Files, ops: seq<Op>): Files
    decreases |ops|
  {
    if ops == [] then files else ApplyAll(Apply(files, ops[0]), ops[1..])
  }

  /** The version of a record that a run of operations leaves behind, if it leaves one. */
  function Latest(before: Option<Record>, ops: seq<Op>, id: Id): Option<Record>
    decreases |ops|
  {
    if ops == [] then before
    else match ops[0]
         case Save(r) => Latest(if r.id == id then Some(r) else before, ops[1..], id)
         case Remove(gone) => Latest(if gone == id then None else before, ops[1..], id)
  }

  function LookUp(files: Files, id: Id): Option<Record> {
    if FileName(id) in files then files[FileName(id)] else None
  }

  lemma {:induction false} ApplyKeeps(files: Files, op: Op, id: Id)
    requires Consistent(files)
    ensures Consistent(Apply(files, op))
    ensures LookUp(Apply(files, op), id)
         == match op
            case Save(r) => if r.id == id then Some(r) else LookUp(files, id)
            case Remove(gone) => if gone == id then None else LookUp(files, id)
  {
  }

  /** After every run of saves and removes, each ID has exactly its last saved version, or none. */
  lemma {:induction false} RunsKeepLatest(files: Files, ops: seq<Op>, id: Id)
    requires Consistent(files)
    ensures Consistent(ApplyAll(files, ops))
    ensures LookUp(ApplyAll(files, ops), id) == Latest(LookUp(files, id), ops, id)
    decreases |ops|
  {
    if ops == [] {
    } else {
      ApplyKeeps(files, ops[0], id);
      RunsKeepLatest(Apply(files, ops[0]), ops[1..], id);
    }
  }

  lemma {:induction false} JsonName(id: Id)
    ensures IsJson(FileName(id)) <==> id != []
  {
  }

  /** After any run, whatever the listing order, loading gives one list: the last saved versions, newest first. */
  lemma {:induction false} RunListing(ops: seq<Op>, a: seq<Bytes>, b: seq<Bytes>)
    requires Lists(ApplyAll(map[], ops), a) && Lists(ApplyAll(map[], ops), b)
    ensures
      var loaded := LoadedFrom(ApplyAll(map[], ops), a);
      && loaded == LoadedFrom(ApplyAll(map[], ops), b)
      && loaded.Ok? && NewestFirst(loaded.value)
      && forall r :: r in loaded.value <==> r.id != [] && Latest(None, ops, r.id) == Some(r)
  {
    var files := ApplyAll(map[], ops);
    RunsKeepLatest(map[], ops, []);
    ConsistentOrderIrrelevant(files, a, b);
    LoadIsListing(files, a);
    LoadsNewestFirst(files, a);
    forall r: Record
      ensures Holds(files, r) <==> r.id != [] && Latest(None, ops, r.id) == Some(r)
    {
      HeldIsLatest(ops, r);
    }
  }

  lemma {:induction false} HeldIsLatest(ops: seq<Op>, r: Record)
    ensures Holds(ApplyAll(map[], ops), r) <==> r.id != [] && Latest(None, ops, r.id) == Some(r)
  {
    RunsKeepLatest(map[], ops, r.id);
    JsonName(r.id);
  }

  /** After any run on IDs of one length, looking up a full ID gives its last saved version, never an ambiguity. */
  lemma {:induction false} RunLookup(ops: seq<Op>, n: nat, id: Id, r: Result<Option<Record>>)
    requires 0 < n == |id| && forall op :: op in ops && op.Save? ==> |op.record.id| == n
    requires Answers(ApplyAll(map[], ops), id, r)
    ensures r == Ok(Latest(None, ops, id))
  {
    var files := ApplyAll(map[], ops);
    RunsKeepLatest(map[], ops, id);
    JsonName(id);
    SavedLengths(map[], ops, n);
    var latest := Latest(None, ops, id);
    if latest.Some? {
      SavedIds(None, ops, id);
      assert Holds(files, latest.value);
      FullIdLookup(files, latest.value, r);
    } else {
      assert forall x :: Match(files, x, id) ==> x.id == id;
      AnswerUnique(files, id, r, Ok(None));
    }
  }

  lemma {:induction false} SavedIds(before: Option<Record>, ops: seq<Op>, id: Id)
    requires before.Some? ==> before.value.id == id
    ensures Latest(before, ops, id).Some? ==> Latest(before, ops, id).value.id == id
    decreases |ops|
  {
    if ops == [] {
    } else {
      match ops[0]
      case Save(r) => SavedIds(if r.id == id then Some(r) else before, ops[1..], id);
      case Remove(gone) => SavedIds(if gone == id then None else before, ops[1..], id);
    }
  }

  lemma {:induction false} SavedLengths(files: Files, ops: seq<Op>, n: nat)
    requires forall r :: Holds(files, r) ==> |r.id| == n
    requires forall op :: op in ops && op.Save? ==> |op.record.id| == n
    ensures forall r :: Holds(ApplyAll(files, ops), r) ==> |r.id| == n
    decreases |ops|
  {
    if ops == [] {
    } else {
      assert ops[0] in ops;
      var next := Apply(files, ops[0]);
      forall r | Holds(next, r)
        ensures |r.id| == n
      {
        if !Holds(files, r) {
          assert FileName(r.id) == FileName(ops[0].record.id);
          FileNameInjective(r.id, ops[0].record.id);
        }
      }
      SavedLengths(next, ops[1..], n);
    }
  }

  /** The directory on disk. */
  class Directory {
    var files: Files

    constructor ()
      ensures files == map[]
    {
      files := map[];
    }

    /** Writes a temporary file and renames it into place. */
    method Save(record: Record)
      modifies this
      ensures files == Apply(old(files), Op.Save(record))
      ensures files == old(files)[record.id + [46, 106, 115, 111, 110] := Some(record)]
      ensures old(Consistent(files)) ==> Consistent(files)
    {
      if Consistent(files) {
        ApplyKeeps(files, Op.Save(record), []);
      }
      files := files[FileName(record.id) := Some(record)];
    }

    method Remove(id: Id) returns (existed: bool)
      modifies this
      ensures files == Apply(old(files), Op.Remove(id))
      ensures files == old(files) - {id + [46, 106, 115, 111, 110]}
      ensures old(Consistent(files)) ==> Consistent(files)
      ensures existed <==> FileName(id) in old(files)
    {
      if Consistent(files) {
        ApplyKeeps(files, Op.Remove(id), []);
      }
      existed := FileName(id) in files;
      files := files - {FileName(id)};
    }
  }
}
