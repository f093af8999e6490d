/** On which base images, and with which option, the cache agrees with running every instruction: exactly those. */
module BuildCacheLimits {
  import opened Seqs
  import opened ImageStore
  import opened BuildCache

  // ----- the image a history stands for -----

  /** The layers and diff IDs that the entries of a history commit, in order. */
  function Committed(world: World, history: seq<HistoryEntry>): (r: (seq<Descriptor>, seq<Digest>))
    ensures |r.0| == |r.1|
  {
    if history == [] then ([], []) else
    var n := |history| - 1;
    var (layers, diffIds) := Committed(world, history[..n]);
    if history[n].emptyLayer then (layers, diffIds) else
    var (descriptor, diffId) := world(Texts(history));
    (layers + [descriptor], diffIds + [diffId])
  }

  function ImageFor(world: World, history: seq<HistoryEntry>): Candidate {
    var (layers, diffIds) := Committed(world, history);
    Candidate(history, diffIds, layers)
  }

  lemma {:induction false} CommittedCount(world: World, history: seq<HistoryEntry>)
    ensures |Committed(world, history).0| == LayerEntries(history)
  {
    if history == [] {
    } else {
      var n := |history| - 1;
      CommittedCount(world, history[..n]);
      assert history == history[..n] + [history[n]];
      TextsSnoc(history[..n], history[n]);
    }
  }

  lemma {:induction false} CommittedAt(world: World, history: seq<HistoryEntry>, i: nat)
    requires i < |history| && !history[i].emptyLayer
    ensures
      var (layers, diffIds) := Committed(world, history);
      var k := LayerEntries(history[..i]);
      k < |layers| && (layers[k], diffIds[k]) == world(Texts(history[..i + 1]))
  {
    var n := |history| - 1;
    CommittedCount(world, history[..n]);
    if i == n {
      assert history[..n + 1] == history;
    } else {
      CommittedAt(world, history[..n], i);
      assert history[..n][..i] == history[..i] && history[..n][..i + 1] == history[..i + 1];
    }
  }

  lemma {:induction false} ImageTruthful(world: World, history: seq<HistoryEntry>)
    ensures Truthful(world, ImageFor(world, history))
  {
    var c := ImageFor(world, history);
    forall i | 0 <= i < |c.history| && !c.history[i].emptyLayer
      ensures
        var k := LayerEntries(c.history[..i]);
        k < |c.layers| && k < |c.diffIds| && (c.layers[k], c.diffIds[k]) == world(Texts(c.history[..i + 1]))
    {
      CommittedAt(world, history, i);
    }
  }

  /** An image whose layers are those of its own history is a good candidate. */
  lemma {:induction false} ImageGood(world: World, history: seq<HistoryEntry>)
    ensures GoodCandidates(world, [ImageFor(world, history)])
  {
    CommittedCount(world, history);
    ImageTruthful(world, history);
    var c := ImageFor(world, history);
    assert AlignedCandidate(c);
    assert forall x :: x in [c] ==> x == c;
  }

  /** The entry of the `n`-th layer. */
  lemma {:induction false} NthLayer(history: seq<HistoryEntry>, n: nat) returns (i: nat)
    requires n < LayerEntries(history)
    ensures i < |history| && !history[i].emptyLayer && LayerEntries(history[..i]) == n
  {
    var m := |history| - 1;
    assert history == history[..m] + [history[m]];
    TextsSnoc(history[..m], history[m]);
    if n == LayerEntries(history[..m]) {
      i := m;
    } else {
      i := NthLayer(history[..m], n);
      assert history[..m][..i] == history[..i];
    }
  }

  // ----- a candidate that misleads -----

  function Longest(history: seq<HistoryEntry>): nat {
    if history == [] then 0 else
    var n := |history[0].createdBy.GetOr("")|;
    var m := Longest(history[1..]);
    if n > m then n else m
  }

  lemma {:induction false} LongestIs(history: seq<HistoryEntry>, h: HistoryEntry)
    requires h in history
    ensures |h.createdBy.GetOr("")| <= Longest(history)
  {
    if h == history[0] {
    } else {
      LongestIs(history[1..], h);
    }
  }

  /** The text of an instruction that the history does not hold, and of another one. */
  function Unheard(history: seq<HistoryEntry>): string {
    seq(Longest(history) + 1, i => 'x')
  }

  function Another(history: seq<HistoryEntry>): string {
    seq(Longest(history) + 2, i => 'x')
  }

  /** The history goes on with the unheard instruction and then many times with the other one. */
  function Continued(history: seq<HistoryEntry>, n: nat): seq<HistoryEntry> {
    history + ([Layered(Unheard(history))] + seq(n + 1, i => Layered(Another(history))))
  }

  /** A world that tells the layer of one chain from all others. */
  function Telling(special: seq<Text>): World {
    (chain: seq<Text>) => if chain == special then (Named("run"), "run") else (Named("other"), "other")
  }

  function MisledWorld(history: seq<HistoryEntry>, chain: seq<Text>): World {
    Telling(chain + [Text(Some(Unheard(history)), false)])
  }

  function Misleading(history: seq<HistoryEntry>, chain: seq<Text>, n: nat): Candidate {
    ImageFor(MisledWorld(history, chain), Continued(history, n))
  }

  lemma {:induction false} AllLayers(history: seq<HistoryEntry>)
    requires forall h :: h in history ==> !h.emptyLayer
    ensures LayerEntries(history) == |history|
  {
    if history == [] {
    } else {
      AllLayers(history[1..]);
    }
  }

  lemma {:induction false} EnoughLayers(history: seq<HistoryEntry>, n: nat)
    ensures n < LayerEntries(Continued(history, n))
  {
    var more := [Layered(Unheard(history))] + seq(n + 1, i => Layered(Another(history)));
    AllLayers(more);
    LayerEntriesConcat(history, more);
  }

  /** The unheard instruction stands in one place only. */
  lemma {:induction false} HeardElsewhere(history: seq<HistoryEntry>, n: nat, i: nat)
    requires i < |Continued(history, n)| && i != |history|
    ensures TextOf(Continued(history, n)[i]) != Text(Some(Unheard(history)), false)
  {
    if i < |history| {
      assert Continued(history, n)[i] == history[i];
      LongestIs(history, history[i]);
    } else {
      assert Continued(history, n)[i] == Layered(Another(history));
      assert |Another(history)| != |Unheard(history)|;
    }
  }

  lemma {:induction false} SnocDiffers<T>(a: seq<T>, x: T, b: seq<T>, y: T)
    requires a != b || x != y
    ensures a + [x] != b + [y]
  {
    if |a| == |b| {
      assert (a + [x])[..|a|] == a && (b + [y])[..|b|] == b;
      assert (a + [x])[|a|] == x && (b + [y])[|b|] == y;
    }
  }

  /** Unless the build is faithful, the layer at its position belongs to another chain. */
  lemma {:induction false} OtherChain(history: seq<HistoryEntry>, chain: seq<Text>, n: nat, i: nat)
    requires i < |Continued(history, n)| && LayerEntries(Continued(history, n)[..i]) == n
    requires !(LayerEntries(history) == n && chain == Texts(history))
    ensures Texts(Continued(history, n)[..i + 1]) != chain + [Text(Some(Unheard(history)), false)]
  {
    var all, text := Continued(history, n), Text(Some(Unheard(history)), false);
    assert all[..i + 1] == all[..i] + [all[i]];
    TextsSnoc(all[..i], all[i]);
    if i == |history| {
      assert all[..i] == history;
    } else {
      HeardElsewhere(history, n, i);
    }
    SnocDiffers(Texts(all[..i]), TextOf(all[i]), chain, text);
  }

  /** What the misleading candidate offers: something else than running would give. */
  lemma {:induction false} MisleadingOffer(history: seq<HistoryEntry>, chain: seq<Text>, n: nat)
    requires !(LayerEntries(history) == n && chain == Texts(history))
    ensures
      var offer := FindCachedLayer([Misleading(history, chain, n)], history, n, Unheard(history));
      offer.Some? && offer.value.diffId == "other"
  {
    var all, world := Continued(history, n), MisledWorld(history, chain);
    var c := Misleading(history, chain, n);
    EnoughLayers(history, n);
    CommittedCount(world, all);
    var i := NthLayer(all, n);
    CommittedAt(world, all, i);
    OtherChain(history, chain, n, i);
    assert all[|history|] == Layered(Unheard(history));
    assert HistoryPrefixMatches(c.history, history);
    assert Offer(c, history, n, Unheard(history)).Some?;
  }

  lemma {:induction false} NoOffer(c: Candidate, history: seq<HistoryEntry>, m: nat, createdBy: string)
    requires |history| < |c.history| && c.history[|history|].createdBy != Some(createdBy)
    ensures FindCachedLayer([c], history, m, createdBy).None?
  {
    assert [c][1..] == [];
  }

  lemma {:induction false} NoOtherOffer(history: seq<HistoryEntry>, chain: seq<Text>, n: nat, m: nat)
    ensures FindCachedLayer([Misleading(history, chain, n)], history, m, Another(history)).None?
  {
    assert Continued(history, n)[|history|] == Layered(Unheard(history));
    assert |Another(history)| != |Unheard(history)|;
    NoOffer(Misleading(history, chain, n), history, m, Another(history));
  }

  // ----- the exact condition -----

  lemma {:induction false} MisledStep(now: string, omitHistory: bool, b: Built)
    requires !Faithful(b)
    ensures
      var world, c, i := MisledWorld(b.history, b.chain), Misleading(b.history, b.chain, |b.layers|),
                         Layer(Unheard(b.history));
      Execute(world, now, omitHistory, b, i).diffIds != CachedStep(world, now, omitHistory, [c], b, i).diffIds
  {
    MisleadingOffer(b.history, b.chain, |b.layers|);
    var world, c, i := MisledWorld(b.history, b.chain), Misleading(b.history, b.chain, |b.layers|),
                       Layer(Unheard(b.history));
    var n := |b.diffIds|;
    assert Execute(world, now, omitHistory, b, i).diffIds[n] == "run";
    assert CachedStep(world, now, omitHistory, [c], b, i).diffIds[n] == "other";
    assert "run"[0] != "other"[0];
  }

  /**
    * On any base whose history does not tell its layers or its chain, a good candidate can mislead the very
    * first lookup.
    */
  lemma {:induction false} UnfaithfulBaseMisleads(clock: nat -> string, omitHistory: bool, base: Built)
    requires !Faithful(base)
    ensures
      var world, c := MisledWorld(base.history, base.chain), Misleading(base.history, base.chain, |base.layers|);
      GoodCandidates(world, [c]) && Differ(world, clock, omitHistory, [c], base, [Layer(Unheard(base.history))])
  {
    var world := MisledWorld(base.history, base.chain);
    ImageGood(world, Continued(base.history, |base.layers|));
    MisledStep(clock(1), omitHistory, base);
    OneStep(world, clock, omitHistory, [Misleading(base.history, base.chain, |base.layers|)], base,
            Layer(Unheard(base.history)));
  }

  /**
    * With the history omitted, the recorded history no longer tells how many layers there are: on any base, the lookup
    * of a second instruction takes a layer of another one.
    */
  lemma {:induction false} OmittedHistoryMisleads(clock: nat -> string, base: Built)
    requires Faithful(base)
    ensures
      var chain, n := base.chain + [Text(Some(Another(base.history)), false)], |base.layers| + 1;
      var world, c := MisledWorld(base.history, chain), Misleading(base.history, chain, n);
      && GoodCandidates(world, [c])
      && Differ(world, clock, true, [c], base, [Layer(Another(base.history)), Layer(Unheard(base.history))])
  {
    var chain, n := base.chain + [Text(Some(Another(base.history)), false)], |base.layers| + 1;
    var world, c := MisledWorld(base.history, chain), Misleading(base.history, chain, n);
    var first, second := Layer(Another(base.history)), Layer(Unheard(base.history));
    ImageGood(world, Continued(base.history, n));
    OmittedStep(clock(2), base);
    MisledStep(clock(1), true, Execute(world, clock(2), true, base, first));
    TwoSteps(world, clock, true, [c], base, first, second);
  }

  /** The first instruction is run, cache or not, and leaves a history that no longer tells its layers. */
  lemma {:induction false} OmittedStep(now: string, base: Built)
    requires Faithful(base)
    ensures
      var chain, n, first := base.chain + [Text(Some(Another(base.history)), false)], |base.layers| + 1,
                             Layer(Another(base.history));
      var world, c := MisledWorld(base.history, chain), Misleading(base.history, chain, n);
      var b := Execute(world, now, true, base, first);
      && CachedStep(world, now, true, [c], base, first) == b
      && b.history == base.history && b.chain == chain && |b.layers| == n && !Faithful(b)
  {
    NoOtherOffer(base.history, base.chain + [Text(Some(Another(base.history)), false)], |base.layers| + 1, |base.layers|);
  }

  lemma {:induction false} TwoSteps(world: World, clock: nat -> string, omitHistory: bool, candidates: seq<Candidate>,
                                    base: Built, first: Instruction, second: Instruction)
    ensures Build(world, clock, omitHistory, base, [first, second])
         == Execute(world, clock(1), omitHistory, Execute(world, clock(2), omitHistory, base, first), second)
    ensures CachedBuild(world, clock, omitHistory, candidates, base, [first, second])
         == CachedStep(world, clock(1), omitHistory, candidates,
                       CachedStep(world, clock(2), omitHistory, candidates, base, first), second)
  {
    var program, ran, cached := [first, second], Execute(world, clock(2), omitHistory, base, first),
                                CachedStep(world, clock(2), omitHistory, candidates, base, first);
    assert program[1..] == [second] && [second][1..] == [];
    assert Build(world, clock, omitHistory, base, program) == Build(world, clock, omitHistory, ran, [second]);
    assert CachedBuild(world, clock, omitHistory, candidates, base, program)
        == CachedBuild(world, clock, omitHistory, candidates, cached, [second]);
    OneStep(world, clock, omitHistory, candidates, ran, second);
    OneStep(world, clock, omitHistory, candidates, cached, second);
  }

  lemma {:induction false} OneStep(world: World, clock: nat -> string, omitHistory: bool, candidates: seq<Candidate>,
                                   base: Built, only: Instruction)
    ensures Build(world, clock, omitHistory, base, [only]) == Execute(world, clock(1), omitHistory, base, only)
    ensures CachedBuild(world, clock, omitHistory, candidates, base, [only])
         == CachedStep(world, clock(1), omitHistory, candidates, base, only)
  {
    assert [only][1..] == [];
  }

  /** The cache can be relied on for this base: whatever the world, the good candidates and the program. */
  ghost predicate Reliable(clock: nat -> string, omitHistory: bool, base: Built) {
    forall world, candidates, program ::
      GoodCandidates(world, candidates) ==> !Differ(world, clock, omitHistory, candidates, base, program)
  }

  /**
    * The cache agrees with running every instruction, whatever the good candidates, exactly when the history is kept
    * and that of the base image has one entry for each of its layers and tells the chain it is the result of.
    */
  lemma {:induction false} CacheReliableExactly(clock: nat -> string, omitHistory: bool, base: Built)
    ensures Reliable(clock, omitHistory, base) <==> Faithful(base) && !omitHistory
  {
    if !Faithful(base) {
      UnfaithfulBaseMisleads(clock, omitHistory, base);
    } else if omitHistory {
      OmittedHistoryMisleads(clock, base);
    } else {
      forall world, candidates, program | GoodCandidates(world, candidates)
        ensures !Differ(world, clock, omitHistory, candidates, base, program)
      {
        CacheAgreesWithRunning(world, clock, clock, candidates, base, program);
      }
    }
  }
}
