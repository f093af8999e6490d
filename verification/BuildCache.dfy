/** The build cache: `history_prefix_matches`, `find_cached_layer`, and a build that consults them. */
module BuildCache {
  import opened Seqs
  import opened ImageStore

  datatype HistoryEntry = HistoryEntry(
    created: Option<string>, createdBy: Option<string>, author: Option<string>, comment: Option<string>, emptyLayer: bool)

  /** The part of a history entry that the cache compares. */
  datatype Text = Text(createdBy: Option<string>, emptyLayer: bool)

  function TextOf(h: HistoryEntry): Text {
    Text(h.createdBy, h.emptyLayer)
  }

  function Texts(history: seq<HistoryEntry>): (r: seq<Text>)
    ensures |r| == |history| && forall i :: 0 <= i < |r| ==> r[i] == TextOf(history[i])
  {
    if history == [] then [] else [TextOf(history[0])] + Texts(history[1..])
  }

  datatype Candidate = Candidate(history: seq<HistoryEntry>, diffIds: seq<Digest>, layers: seq<Descriptor>)

  datatype CachedLayer = CachedLayer(descriptor: Descriptor, diffId: Digest, entry: HistoryEntry)

  // ----- the lookup -----

  predicate HistoryPrefixMatches(candidate: seq<HistoryEntry>, current: seq<HistoryEntry>) {
    && |candidate| > |current|
    && forall i :: 0 <= i < |current| ==>
         candidate[i].createdBy == current[i].createdBy && candidate[i].emptyLayer == current[i].emptyLayer
  }

  /** What one candidate offers for the instruction `createdBy` at this point of the build. */
  function Offer(c: Candidate, history: seq<HistoryEntry>, layerCount: nat, createdBy: string): Option<CachedLayer> {
    if !HistoryPrefixMatches(c.history, history) then None else
    var next := c.history[|history|];
    if next.emptyLayer || next.createdBy != Some(createdBy) then None
    else if layerCount >= |c.layers| || layerCount >= |c.diffIds| then None
    else Some(CachedLayer(c.layers[layerCount], c.diffIds[layerCount], next))
  }

  function FindCachedLayer(candidates: seq<Candidate>, history: seq<HistoryEntry>, layerCount: nat, createdBy: string)
    : Option<CachedLayer>
  {
    if candidates == [] then None else
    var offer := Offer(candidates[0], history, layerCount, createdBy);
    if offer.Some? then offer else FindCachedLayer(candidates[1..], history, layerCount, createdBy)
  }

  // ----- alignment -----

  /** How many entries stand for a layer. */
  function LayerEntries(history: seq<HistoryEntry>): nat {
    if history == [] then 0 else (if history[0].emptyLayer then 0 else 1) + LayerEntries(history[1..])
  }

  lemma {:induction false} LayerEntriesConcat(a: seq<HistoryEntry>, b: seq<HistoryEntry>)
    ensures LayerEntries(a + b) == LayerEntries(a) + LayerEntries(b)
  {
    if a == [] {
      assert a + b == b;
    } else {
      assert (a + b)[1..] == a[1..] + b;
      LayerEntriesConcat(a[1..], b);
    }
  }

  lemma {:induction false} LayerEntriesSame(a: seq<HistoryEntry>, b: seq<HistoryEntry>)
    requires Texts(a) == Texts(b)
    ensures LayerEntries(a) == LayerEntries(b)
  {
    if a == [] {
    } else {
      assert TextOf(a[0]) == Texts(a)[0] == Texts(b)[0] == TextOf(b[0]);
      assert Texts(a[1..]) == Texts(a)[1..] == Texts(b)[1..] == Texts(b[1..]);
      LayerEntriesSame(a[1..], b[1..]);
    }
  }

  /** History entries that stand for a layer, layers and diff IDs are equal in number. */
  predicate Aligned(history: seq<HistoryEntry>, diffIds: seq<Digest>, layers: seq<Descriptor>) {
    LayerEntries(history) == |layers| == |diffIds|
  }

  predicate AlignedCandidate(c: Candidate) {
    Aligned(c.history, c.diffIds, c.layers)
  }

  /** The candidate's own entry `i` stands for a layer, which is the one after those of the entries below it. */
  lemma {:induction false} LayerOfEntry(c: Candidate, i: nat)
    requires AlignedCandidate(c) && i < |c.history| && !c.history[i].emptyLayer
    ensures LayerEntries(c.history[..i]) < |c.layers| == |c.diffIds|
  {
    assert c.history == c.history[..i] + ([c.history[i]] + c.history[i + 1..]);
    LayerEntriesConcat(c.history[..i], [c.history[i]] + c.history[i + 1..]);
    assert ([c.history[i]] + c.history[i + 1..])[1..] == c.history[i + 1..];
  }

  // ----- what a hit is -----

  /** The candidate continues the current history with a layer made by `createdBy`. */
  predicate Continues(c: Candidate, history: seq<HistoryEntry>, createdBy: string) {
    && |history| < |c.history|
    && Texts(c.history[..|history|]) == Texts(history)
    && TextOf(c.history[|history|]) == Text(Some(createdBy), false)
  }

  lemma {:induction false} PrefixIsTexts(c: Candidate, history: seq<HistoryEntry>)
    ensures HistoryPrefixMatches(c.history, history)
       <==> |history| < |c.history| && Texts(c.history[..|history|]) == Texts(history)
  {
  }

  /** An aligned candidate makes an offer exactly when it continues the history: its own layer for that very entry. */
  lemma {:induction false} OfferIsExact(c: Candidate, history: seq<HistoryEntry>, layerCount: nat, createdBy: string)
    requires AlignedCandidate(c) && layerCount == LayerEntries(history)
    ensures Offer(c, history, layerCount, createdBy).Some? <==> Continues(c, history, createdBy)
    ensures Continues(c, history, createdBy) ==>
              var i := |history|;
              var k := LayerEntries(c.history[..i]);
              k < |c.layers| == |c.diffIds|
              && Offer(c, history, layerCount, createdBy) == Some(CachedLayer(c.layers[k], c.diffIds[k], c.history[i]))
  {
    PrefixIsTexts(c, history);
    if Continues(c, history, createdBy) {
      LayerEntriesSame(c.history[..|history|], history);
      LayerOfEntry(c, |history|);
    }
  }

  /** A hit comes from some candidate's own entry; a miss means that no candidate continues the history. */
  lemma {:induction false} HitIsExact(candidates: seq<Candidate>, history: seq<HistoryEntry>, createdBy: string)
    requires forall c :: c in candidates ==> AlignedCandidate(c)
    ensures
      var hit := FindCachedLayer(candidates, history, LayerEntries(history), createdBy);
      && (hit.None? <==> forall c :: c in candidates ==> !Continues(c, history, createdBy))
      && (hit.Some? ==> exists c :: c in candidates && Continues(c, history, createdBy)
                                    && hit == Offer(c, history, LayerEntries(history), createdBy))
    decreases |candidates|
  {
    if candidates == [] {
    } else {
      var c := candidates[0];
      assert c in candidates;
      OfferIsExact(c, history, LayerEntries(history), createdBy);
      if Offer(c, history, LayerEntries(history), createdBy).None? {
        HitIsExact(candidates[1..], history, createdBy);
        assert candidates == [c] + candidates[1..];
      }
    }
  }

  /** The hit is that of the first candidate that continues the history, whatever the later ones would offer. */
  lemma {:induction false} FirstCandidateWins(candidates: seq<Candidate>, history: seq<HistoryEntry>, createdBy: string,
                                              n: nat)
    requires forall c :: c in candidates ==> AlignedCandidate(c)
    requires n < |candidates| && Continues(candidates[n], history, createdBy)
    requires forall m :: 0 <= m < n ==> !Continues(candidates[m], history, createdBy)
    ensures
      var c, i := candidates[n], |history|;
      var k := LayerEntries(c.history[..i]);
      && k < |c.layers| == |c.diffIds|
      && FindCachedLayer(candidates, history, LayerEntries(history), createdBy)
         == Some(CachedLayer(c.layers[k], c.diffIds[k], c.history[i]))
    decreases n
  {
    assert candidates[0] in candidates && candidates[n] in candidates;
    OfferIsExact(candidates[0], history, LayerEntries(history), createdBy);
    if n == 0 {
    } else {
      assert candidates[1..][n - 1] == candidates[n];
      assert forall m :: 0 <= m < n - 1 ==> candidates[1..][m] == candidates[m + 1];
      FirstCandidateWins(candidates[1..], history, createdBy, n - 1);
    }
  }

  // ----- builds -----

  /** An instruction that commits a layer (`RUN`, `COPY`, `ADD`) or only changes the configuration. */
  datatype Instruction = Layer(createdBy: string) | Meta(createdBy: string)

  /** An image being built, and the chain of instructions it really is the result of. */
  datatype Built = Built(history: seq<HistoryEntry>, diffIds: seq<Digest>, layers: seq<Descriptor>, chain: seq<Text>)

  /** The layer that running the last instruction of a chain commits, on top of the rest of the chain. */
  type World = seq<Text> -> (Descriptor, Digest)

  function Entry(createdBy: string, emptyLayer: bool, now: string): HistoryEntry {
    HistoryEntry(Some(now), Some(createdBy), None, None, emptyLayer)
  }

  /** Running one instruction: `record_layer` or `record_empty_history`, which skip the history on request. */
  function Execute(world: World, now: string, omitHistory: bool, b: Built, i: Instruction): Built {
    var text := Text(Some(i.createdBy), i.Meta?);
    var chain := b.chain + [text];
    var history := if omitHistory then b.history else b.history + [Entry(i.createdBy, i.Meta?, now)];
    match i
    case Meta(_) => b.(history := history, chain := chain)
    case Layer(_) =>
      var (descriptor, diffId) := world(chain);
      Built(history, b.diffIds + [diffId], b.layers + [descriptor], chain)
  }

  /** Splices a cached layer in, with the candidate's own history entry. */
  function Reuse(b: Built, hit: CachedLayer, createdBy: string): Built {
    Built(b.history + [hit.entry], b.diffIds + [hit.diffId], b.layers + [hit.descriptor],
          b.chain + [Text(Some(createdBy), false)])
  }

  function CachedStep(world: World, now: string, omitHistory: bool, candidates: seq<Candidate>, b: Built,
                      i: Instruction)
    : Built
  {
    if i.Meta? then Execute(world, now, omitHistory, b, i) else
    match FindCachedLayer(candidates, b.history, |b.layers|, i.createdBy)
    case Some(hit) => Reuse(b, hit, i.createdBy)
    case None => Execute(world, now, omitHistory, b, i)
  }

  function Build(world: World, clock: nat -> string, omitHistory: bool, b: Built, program: seq<Instruction>): Built
    decreases |program|
  {
    if program == [] then b
    else Build(world, clock, omitHistory, Execute(world, clock(|program|), omitHistory, b, program[0]), program[1..])
  }

  function CachedBuild(world: World, clock: nat -> string, omitHistory: bool, candidates: seq<Candidate>, b: Built,
                       program: seq<Instruction>): Built
    decreases |program|
  {
    if program == [] then b
    else CachedBuild(world, clock, omitHistory, candidates,
                     CachedStep(world, clock(|program|), omitHistory, candidates, b, program[0]), program[1..])
  }

  /** A hit is spliced in verbatim: the first continuing candidate's own entry, with its time, its layer and diff ID. */
  lemma {:induction false} HitSplicedVerbatim(world: World, now: string, omitHistory: bool, candidates: seq<Candidate>,
                                              b: Built, createdBy: string, n: nat)
    requires (forall c :: c in candidates ==> AlignedCandidate(c)) && |b.layers| == LayerEntries(b.history)
    requires n < |candidates| && Continues(candidates[n], b.history, createdBy)
    requires forall m :: 0 <= m < n ==> !Continues(candidates[m], b.history, createdBy)
    ensures
      var c, i := candidates[n], |b.history|;
      var k := LayerEntries(c.history[..i]);
      var after := CachedStep(world, now, omitHistory, candidates, b, Layer(createdBy));
      && k < |c.layers| == |c.diffIds|
      && after.history == b.history + [c.history[i]] && after.layers == b.layers + [c.layers[k]]
      && after.diffIds == b.diffIds + [c.diffIds[k]]
  {
    FirstCandidateWins(candidates, b.history, createdBy, n);
  }

  /** A miss, and every instruction that makes no layer, is run and recorded as of now, unless history is omitted. */
  lemma {:induction false} MissRecorded(world: World, now: string, omitHistory: bool, candidates: seq<Candidate>,
                                        b: Built, i: Instruction)
    requires i.Layer? ==> FindCachedLayer(candidates, b.history, |b.layers|, i.createdBy).None?
    ensures
      var after := CachedStep(world, now, omitHistory, candidates, b, i);
      var entry := HistoryEntry(Some(now), Some(i.createdBy), None, None, i.Meta?);
      var (layer, diffId) := world(b.chain + [Text(Some(i.createdBy), i.Meta?)]);
      && after.history == b.history + (if omitHistory then [] else [entry])
      && after.layers == b.layers + (if i.Layer? then [layer] else [])
      && after.diffIds == b.diffIds + (if i.Layer? then [diffId] else [])
  {
  }

  // ----- the cache agrees with running every instruction -----

  /** Each of the candidate's layers is the one its own chain of history texts determines. */
  ghost predicate Truthful(world: World, c: Candidate) {
    forall i :: 0 <= i < |c.history| && !c.history[i].emptyLayer ==>
      var k := LayerEntries(c.history[..i]);
      k < |c.layers| && k < |c.diffIds| && (c.layers[k], c.diffIds[k]) == world(Texts(c.history[..i + 1]))
  }

  /** What the cache may rely on. */
  ghost predicate GoodCandidates(world: World, candidates: seq<Candidate>) {
    forall c :: c in candidates ==> AlignedCandidate(c) && Truthful(world, c)
  }

  /** The history recorded so far has one entry for each layer and tells the whole chain. */
  predicate Faithful(b: Built) {
    LayerEntries(b.history) == |b.layers| && b.chain == Texts(b.history)
  }

  /** The same layers, diff IDs and history texts; timestamps may differ. */
  predicate SameImage(a: Built, b: Built) {
    a.layers == b.layers && a.diffIds == b.diffIds && Texts(a.history) == Texts(b.history) && a.chain == b.chain
  }

  lemma {:induction false} TextsSnoc(history: seq<HistoryEntry>, h: HistoryEntry)
    ensures Texts(history + [h]) == Texts(history) + [TextOf(h)]
    ensures LayerEntries(history + [h]) == LayerEntries(history) + if h.emptyLayer then 0 else 1
  {
    LayerEntriesConcat(history, [h]);
    assert LayerEntries([h][1..]) == 0;
  }

  lemma {:induction false} ExecuteFaithful(world: World, now: string, b: Built, i: Instruction)
    requires Faithful(b)
    ensures Faithful(Execute(world, now, false, b, i))
    ensures Texts(Execute(world, now, false, b, i).history) == Texts(b.history) + [Text(Some(i.createdBy), i.Meta?)]
  {
    TextsSnoc(b.history, Entry(i.createdBy, i.Meta?, now));
  }

  /** Splicing in a hit gives the layer that running the instruction would have committed. */
  lemma {:induction false} ReuseAgrees(world: World, candidates: seq<Candidate>, b: Built, createdBy: string)
    requires GoodCandidates(world, candidates) && Faithful(b)
    requires FindCachedLayer(candidates, b.history, |b.layers|, createdBy).Some?
    ensures
      var hit := FindCachedLayer(candidates, b.history, |b.layers|, createdBy).value;
      && Faithful(Reuse(b, hit, createdBy))
      && (|b.diffIds| == |b.layers| ==> |Reuse(b, hit, createdBy).diffIds| == |Reuse(b, hit, createdBy).layers|)
      && TextOf(hit.entry) == Text(Some(createdBy), false)
      && (hit.descriptor, hit.diffId) == world(b.chain + [Text(Some(createdBy), false)])
  {
    var hit := FindCachedLayer(candidates, b.history, |b.layers|, createdBy).value;
    HitIsExact(candidates, b.history, createdBy);
    var c :| c in candidates && Continues(c, b.history, createdBy)
             && Some(hit) == Offer(c, b.history, LayerEntries(b.history), createdBy);
    OfferIsExact(c, b.history, |b.layers|, createdBy);
    OfferIsTrue(world, c, b, createdBy);
    TextsSnoc(b.history, hit.entry);
  }

  /** What a truthful candidate offers is the layer of the chain so far and the instruction. */
  lemma {:induction false} OfferIsTrue(world: World, c: Candidate, b: Built, createdBy: string)
    requires AlignedCandidate(c) && Truthful(world, c) && Faithful(b) && Continues(c, b.history, createdBy)
    ensures
      var i, k := |b.history|, LayerEntries(b.history);
      && k == LayerEntries(c.history[..i]) && k < |c.layers| && k < |c.diffIds|
      && (c.layers[k], c.diffIds[k]) == world(b.chain + [Text(Some(createdBy), false)])
  {
    var i := |b.history|;
    assert c.history[..i + 1] == c.history[..i] + [c.history[i]];
    TextsSnoc(c.history[..i], c.history[i]);
    LayerEntriesSame(c.history[..i], b.history);
  }

  lemma {:induction false} StepAgrees(world: World, now: string, now': string, candidates: seq<Candidate>,
                                      a: Built, b: Built, i: Instruction)
    requires GoodCandidates(world, candidates) && Faithful(a) && Faithful(b) && SameImage(a, b)
    ensures
      var a' := Execute(world, now, false, a, i);
      var b' := CachedStep(world, now', false, candidates, b, i);
      Faithful(a') && Faithful(b') && SameImage(a', b')
  {
    ExecuteFaithful(world, now, a, i);
    if i.Layer? && FindCachedLayer(candidates, b.history, |b.layers|, i.createdBy).Some? {
      ReuseAgrees(world, candidates, b, i.createdBy);
      TextsSnoc(b.history, FindCachedLayer(candidates, b.history, |b.layers|, i.createdBy).value.entry);
    } else {
      ExecuteFaithful(world, now', b, i);
    }
  }

  lemma {:induction false} BuildsAgree(world: World, clock: nat -> string, clock': nat -> string,
                                       candidates: seq<Candidate>, a: Built, b: Built, program: seq<Instruction>)
    requires GoodCandidates(world, candidates) && Faithful(a) && Faithful(b) && SameImage(a, b)
    ensures SameImage(Build(world, clock, false, a, program), CachedBuild(world, clock', false, candidates, b, program))
    decreases |program|
  {
    if program == [] {
    } else {
      var n := |program|;
      StepAgrees(world, clock(n), clock'(n), candidates, a, b, program[0]);
      BuildsAgree(world, clock, clock', candidates, Execute(world, clock(n), false, a, program[0]),
                  CachedStep(world, clock'(n), false, candidates, b, program[0]), program[1..]);
    }
  }

  /** A whole build with the cache gives the same layers, diff IDs and history texts as one without it. */
  lemma {:induction false} CacheAgreesWithRunning(world: World, clock: nat -> string, clock': nat -> string,
                                                  candidates: seq<Candidate>, base: Built, program: seq<Instruction>)
    requires GoodCandidates(world, candidates) && Faithful(base)
    ensures SameImage(Build(world, clock, false, base, program),
                      CachedBuild(world, clock', false, candidates, base, program))
  {
    BuildsAgree(world, clock, clock', candidates, base, base, program);
  }

  /** Which candidates there are, how many and in which order makes no difference to the image. */
  lemma {:induction false} CandidatesDoNotMatter(world: World, clock: nat -> string, clock': nat -> string,
                                                 these: seq<Candidate>, those: seq<Candidate>, base: Built,
                                                 program: seq<Instruction>)
    requires GoodCandidates(world, these) && GoodCandidates(world, those) && Faithful(base)
    ensures SameImage(CachedBuild(world, clock, false, these, base, program),
                      CachedBuild(world, clock', false, those, base, program))
  {
    CacheAgreesWithRunning(world, clock, clock, these, base, program);
    CacheAgreesWithRunning(world, clock, clock', those, base, program);
  }

  // ----- rebuilding an image that is already there runs nothing -----

  predicate Replayable(history: seq<HistoryEntry>) {
    forall h :: h in history ==> h.createdBy.Some?
  }

  /** The instructions a history was recorded for. */
  function ProgramOf(history: seq<HistoryEntry>): (r: seq<Instruction>)
    requires Replayable(history)
    ensures |r| == |history|
  {
    if history == [] then [] else
    var h := history[0];
    assert h in history;
    [if h.emptyLayer then Meta(h.createdBy.value) else Layer(h.createdBy.value)] + ProgramOf(history[1..])
  }

  /** The build so far is aligned and has the candidate's own first `n` history texts. */
  predicate Follows(b: Built, c: Candidate, n: nat) {
    && Aligned(b.history, b.diffIds, b.layers)
    && n <= |c.history| && Texts(b.history) == Texts(c.history[..n])
  }

  /** One more of the candidate's own instructions: a hit if it commits a layer, and the build still follows. */
  lemma {:induction false} FollowStep(world: World, now: string, candidates: seq<Candidate>, c: Candidate, b: Built,
                                      n: nat)
    requires (forall x :: x in candidates ==> AlignedCandidate(x)) && c in candidates
    requires n < |c.history| && Follows(b, c, n) && c.history[n].createdBy.Some?
    ensures
      var h := c.history[n];
      var i := if h.emptyLayer then Meta(h.createdBy.value) else Layer(h.createdBy.value);
      && (i.Layer? ==> FindCachedLayer(candidates, b.history, |b.layers|, i.createdBy).Some?)
      && Follows(CachedStep(world, now, false, candidates, b, i), c, n + 1)
  {
    var h := c.history[n];
    assert |b.history| == |Texts(b.history)| == n;
    assert c.history[..n + 1] == c.history[..n] + [h];
    TextsSnoc(c.history[..n], h);
    if h.emptyLayer {
      TextsSnoc(b.history, Entry(h.createdBy.value, true, now));
    } else {
      var createdBy := h.createdBy.value;
      assert Continues(c, b.history, createdBy);
      FollowHit(candidates, c, b, createdBy);
    }
  }

  lemma {:induction false} FollowHit(candidates: seq<Candidate>, c: Candidate, b: Built, createdBy: string)
    requires (forall x :: x in candidates ==> AlignedCandidate(x)) && c in candidates
    requires Aligned(b.history, b.diffIds, b.layers) && Continues(c, b.history, createdBy)
    ensures FindCachedLayer(candidates, b.history, |b.layers|, createdBy).Some?
    ensures
      var next := Reuse(b, FindCachedLayer(candidates, b.history, |b.layers|, createdBy).value, createdBy);
      && Aligned(next.history, next.diffIds, next.layers)
      && Texts(next.history) == Texts(b.history) + [Text(Some(createdBy), false)]
  {
    HitIsExact(candidates, b.history, createdBy);
    var hit := FindCachedLayer(candidates, b.history, |b.layers|, createdBy).value;
    var x :| x in candidates && Continues(x, b.history, createdBy)
             && Some(hit) == Offer(x, b.history, LayerEntries(b.history), createdBy);
    OfferIsExact(x, b.history, |b.layers|, createdBy);
    TextsSnoc(b.history, hit.entry);
  }

  /**
    * Rebuilding from any point along an available image's history executes no layer instruction at all: the result
    * is the same whatever running one would have produced.
    */
  lemma {:induction false} RebuildRunsNothing(w: World, w': World, clock: nat -> string, candidates: seq<Candidate>,
                                              c: Candidate, b: Built, n: nat)
    requires (forall x :: x in candidates ==> AlignedCandidate(x)) && c in candidates
    requires Follows(b, c, n) && Replayable(c.history[n..])
    ensures
      var program := ProgramOf(c.history[n..]);
      && CachedBuild(w, clock, false, candidates, b, program) == CachedBuild(w', clock, false, candidates, b, program)
      && Texts(CachedBuild(w, clock, false, candidates, b, program).history) == Texts(c.history)
    decreases |c.history| - n
  {
    var program := ProgramOf(c.history[n..]);
    if n == |c.history| {
      assert c.history[..n] == c.history;
    } else {
      var h, now := c.history[n], clock(|program|);
      assert h == c.history[n..][0] && h in c.history[n..];
      assert c.history[n..][1..] == c.history[n + 1..];
      var i := if h.emptyLayer then Meta(h.createdBy.value) else Layer(h.createdBy.value);
      assert program == [i] + ProgramOf(c.history[n + 1..]);
      assert program[1..] == ProgramOf(c.history[n + 1..]);
      FollowStep(w, now, candidates, c, b, n);
      FollowStep(w', now, candidates, c, b, n);
      var next := CachedStep(w, now, false, candidates, b, i);
      assert next == CachedStep(w', now, false, candidates, b, i);
      RebuildRunsNothing(w, w', clock, candidates, c, next, n + 1);
    }
  }

  // ----- why the premises are needed -----

  function Named(digest: string): Descriptor {
    Descriptor(MEDIA_TYPE_LAYER_GZIP, digest, 1, map[])
  }

  /** A world in which a chain's layer is named after the length of the chain and its first instruction. */
  function SampleWorld(): World {
    (chain: seq<Text>) =>
      var digest := if chain == [] then "" else chain[0].createdBy.GetOr("") + seq(|chain|, i => '.');
      (Named(digest), digest)
  }

  const SCRATCH := Built([], [], [], [])

  function Layered(createdBy: string): HistoryEntry {
    Entry(createdBy, false, "")
  }

  /** A candidate that lists no layer for its first history entry gives away the layer of its second one for it. */
  lemma {:induction false} AlignmentNeeded()
    ensures
      var second := Text(Some("b"), false);
      var (d, id) := SampleWorld()([Text(Some("a"), false), second]);
      var c := Candidate([Layered("a"), Layered("b")], [id], [d]);
      !AlignedCandidate(c)
      && !SameImage(Build(SampleWorld(), n => "", false, SCRATCH, [Layer("a")]),
                    CachedBuild(SampleWorld(), n => "", false, [c], SCRATCH, [Layer("a")]))
  {
    var first, second := Text(Some("a"), false), Text(Some("b"), false);
    var (d, id) := SampleWorld()([first, second]);
    var c := Candidate([Layered("a"), Layered("b")], [id], [d]);
    var (_, own) := SampleWorld()([first]);
    assert LayerEntries(c.history[1..][1..]) == 0 && LayerEntries(c.history[1..]) == 1;
    assert |id| == 3 && |own| == 2;
    OneLayer(SampleWorld(), n => "", "a");
    OneCached(SampleWorld(), n => "", c, "a");
  }

  lemma {:induction false} OneLayer(world: World, clock: nat -> string, createdBy: string)
    ensures Build(world, clock, false, SCRATCH, [Layer(createdBy)]).diffIds == [world([Text(Some(createdBy), false)]).1]
  {
    var text := Text(Some(createdBy), false);
    assert SCRATCH.chain + [text] == [text];
  }

  lemma {:induction false} OneCached(world: World, clock: nat -> string, c: Candidate, createdBy: string)
    requires c.history != [] && c.diffIds != [] && c.layers != [] && TextOf(c.history[0]) == Text(Some(createdBy), false)
    ensures CachedBuild(world, clock, false, [c], SCRATCH, [Layer(createdBy)]).diffIds == [c.diffIds[0]]
  {
  }

  /** An aligned candidate with the right texts but another layer is reused all the same. */
  lemma {:induction false} TruthNeeded()
    ensures
      var c := Candidate([Layered("a")], ["other"], [Named("other")]);
      AlignedCandidate(c)
      && !SameImage(Build(SampleWorld(), n => "", false, SCRATCH, [Layer("a")]),
                    CachedBuild(SampleWorld(), n => "", false, [c], SCRATCH, [Layer("a")]))
  {
    var c := Candidate([Layered("a")], ["other"], [Named("other")]);
    assert LayerEntries(c.history[1..]) == 0;
    var (d, id) := SampleWorld()([Text(Some("a"), false)]);
    assert |id| == 2 && |"other"| == 5;
    OneLayer(SampleWorld(), n => "", "a");
    OneCached(SampleWorld(), n => "", c, "a");
  }

  /** The build with the cache gives another image than the build without it. */
  ghost predicate Differ(world: World, clock: nat -> string, omitHistory: bool, candidates: seq<Candidate>, base: Built,
                         program: seq<Instruction>) {
    !SameImage(Build(world, clock, omitHistory, base, program),
               CachedBuild(world, clock, omitHistory, candidates, base, program))
  }
}
