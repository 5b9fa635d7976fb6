/**
 Whose tokens are counted where: a tier is credited with exactly the blocks it held when
 they were looked up and no tier above it did, over single records and whole runs.
 */
module TierShares {
  import opened Wrappers
  import opened Lru
  import opened Tiers
  import opened TraceRuns

  function HeldBy(v: View, tier: Tier): set<BlockId> {
    match tier
    case Gpu => KeySet(v.gpu)
    case Dram => KeySet(v.dram)
    case Fs => KeySet(v.fs)
  }

  function CapacityOf(caps: Capacities, tier: Tier): nat {
    match tier
    case Gpu => caps.gpu
    case Dram => caps.dram
    case Fs => caps.fs
  }

  function CountOf(t: Tokens, tier: Tier): nat {
    match tier
    case Gpu => t.gpu
    case Dram => t.dram
    case Fs => t.fs
  }

  predicate Above(upper: Tier, lower: Tier) {
    (upper == Gpu && lower != Gpu) || (upper == Dram && lower == Fs)
  }

  // The tiers when block i of a record is looked up.
  function AtLookup(caps: Capacities, v: View, keys: seq<BlockId>, i: nat): View
    requires i <= |keys|
  {
    WalkBlocks(caps, v, keys[..i]).view
  }

  ghost predicate Found(caps: Capacities, v: View, keys: seq<BlockId>, i: nat)
    requires i < |keys|
  {
    exists tier :: keys[i] in HeldBy(AtLookup(caps, v, keys, i), tier)
  }

  // A tier provides a block: no block before it was missed, the tier holds it when it is
  // looked up, and no tier above does.
  ghost predicate Provides(caps: Capacities, v: View, keys: seq<BlockId>, i: nat, tier: Tier)
    requires i < |keys|
  {
    && (forall j :: 0 <= j < i ==> Found(caps, v, keys, j))
    && keys[i] in HeldBy(AtLookup(caps, v, keys, i), tier)
    && forall upper :: Above(upper, tier) ==> keys[i] !in HeldBy(AtLookup(caps, v, keys, i), upper)
  }

  // The weights of the blocks that a tier provides.
  ghost function Provided(caps: Capacities, v: View, keys: seq<BlockId>, weights: seq<nat>, tier: Tier, n: nat): nat
    requires n <= |keys| == |weights|
  {
    if n == 0 then 0
    else Provided(caps, v, keys, weights, tier, n - 1) + if Provides(caps, v, keys, n - 1, tier) then weights[n - 1] else 0
  }

  // One lookup hits in the first tier that holds the block, if any.
  lemma StepHits(caps: Capacities, w: Walk, key: BlockId)
    requires w.available && DistinctView(w.view)
    ensures Step(caps, w, key).available <==> exists tier :: key in HeldBy(w.view, tier)
    ensures Step(caps, w, key).available ==>
              && |Step(caps, w, key).hits| == |w.hits| + 1 && Step(caps, w, key).hits[..|w.hits|] == w.hits
              && var t := Step(caps, w, key).hits[|w.hits|].tier;
                 key in HeldBy(w.view, t) && forall upper :: Above(upper, t) ==> key !in HeldBy(w.view, upper)
    ensures !Step(caps, w, key).available ==> Step(caps, w, key).hits == w.hits
  {
    FindSpec(w.view.gpu, key);
    FindSpec(w.view.dram, key);
    FindSpec(w.view.fs, key);
    assert key in HeldBy(w.view, Gpu) <==> key in KeySet(w.view.gpu);
    assert key in HeldBy(w.view, Dram) <==> key in KeySet(w.view.dram);
    assert key in HeldBy(w.view, Fs) <==> key in KeySet(w.view.fs);
  }

  // The tier of a hit is the one that provides the block.
  lemma OneProvides(caps: Capacities, v: View, keys: seq<BlockId>, i: nat, tier: Tier)
    requires i < |keys| && DistinctView(AtLookup(caps, v, keys, i))
    requires var w := WalkBlocks(caps, v, keys[..i]); w.available <==> forall j :: 0 <= j < i ==> Found(caps, v, keys, j)
    ensures var w, next := WalkBlocks(caps, v, keys[..i]), WalkBlocks(caps, v, keys[..i + 1]);
            && (next.available <==> forall j :: 0 <= j < i + 1 ==> Found(caps, v, keys, j))
            && w.hits <= next.hits && |next.hits| <= |w.hits| + 1
            && (|next.hits| > |w.hits| ==> |w.hits| == i)
            && (Provides(caps, v, keys, i, tier) <==> |next.hits| > |w.hits| && next.hits[|w.hits|].tier == tier)
  {
    var w := WalkBlocks(caps, v, keys[..i]);
    assert keys[..i + 1][..i] == keys[..i];
    if w.available {
      StepHits(caps, w, keys[i]);
      assert Found(caps, v, keys, i) <==> Step(caps, w, keys[i]).available;
    }
  }

  // A walk goes on as long as every block was found.
  lemma {:induction false} UnbrokenIsFound(caps: Capacities, v: View, keys: seq<BlockId>, n: nat)
    requires n <= |keys| && DistinctView(v)
    ensures WalkBlocks(caps, v, keys[..n]).available <==> forall j :: 0 <= j < n ==> Found(caps, v, keys, j)
  {
    if n > 0 {
      UnbrokenIsFound(caps, v, keys, n - 1);
      WalkWithin(caps, v, keys[..n - 1]);
      OneProvides(caps, v, keys, n - 1, Gpu);
    }
  }

  lemma OneMoreHit(before: seq<CacheHit>, after: seq<CacheHit>, weights: seq<nat>, tier: Tier)
    requires before <= after && |after| <= |before| + 1 && |after| <= |weights|
    ensures TierTokens(after, weights, tier) ==
            TierTokens(before, weights, tier) + if |after| > |before| && after[|before|].tier == tier then weights[|before|] else 0
  {
    if |after| > |before| {
      assert after[..|after| - 1] == before;
    }
  }

  // One more block is counted exactly for the tier that provides it.
  lemma StepCounts(caps: Capacities, v: View, keys: seq<BlockId>, weights: seq<nat>, tier: Tier, i: nat)
    requires i < |keys| == |weights| && DistinctView(v)
    ensures TierTokens(WalkBlocks(caps, v, keys[..i + 1]).hits, weights, tier) ==
            TierTokens(WalkBlocks(caps, v, keys[..i]).hits, weights, tier) + if Provides(caps, v, keys, i, tier) then weights[i] else 0
  {
    UnbrokenIsFound(caps, v, keys, i);
    WalkWithin(caps, v, keys[..i]);
    OneProvides(caps, v, keys, i, tier);
    OneMoreHit(WalkBlocks(caps, v, keys[..i]).hits, WalkBlocks(caps, v, keys[..i + 1]).hits, weights, tier);
  }

  // What is counted for a tier is what it provides.
  lemma {:induction false} CountedIsProvided(caps: Capacities, v: View, keys: seq<BlockId>, weights: seq<nat>, tier: Tier, n: nat)
    requires n <= |keys| == |weights| && DistinctView(v)
    ensures TierTokens(WalkBlocks(caps, v, keys[..n]).hits, weights, tier) == Provided(caps, v, keys, weights, tier, n)
  {
    if n == 0 {
      assert keys[..0] == [];
    } else {
      CountedIsProvided(caps, v, keys, weights, tier, n - 1);
      StepCounts(caps, v, keys, weights, tier, n - 1);
    }
  }

  // Each counter of a record is what its tier provides of the record's blocks.
  lemma RecordShares(caps: Capacities, v: View, record: TraceRecord, tier: Tier)
    requires DistinctView(v)
    ensures var ids := record.hashIds;
            CountOf(RecordTokens(record, WalkBlocks(caps, v, ids).hits), tier) ==
            Provided(caps, v, ids, BlockWeights(record.inputLength, |ids|), tier, |ids|)
  {
    var ids := record.hashIds;
    CountedIsProvided(caps, v, ids, BlockWeights(record.inputLength, |ids|), tier, |ids|);
    assert ids[..|ids|] == ids;
  }

  // What a tier provides over a run, each record on its node.
  ghost function RunProvided(caps: Capacities, nodes: nat, records: seq<TraceRecord>, nodeOf: seq<nat>, tier: Tier): nat
    requires Assigned(nodes, records, nodeOf)
  {
    if records == [] then 0
    else
      var k, ids := |records| - 1, records[|records| - 1].hashIds;
      RunProvided(caps, nodes, records[..k], nodeOf[..k], tier) +
      Provided(caps, ViewOf(Run(caps, nodes, records[..k], nodeOf[..k]), nodeOf[k]), ids,
               BlockWeights(records[k].inputLength, |ids|), tier, |ids|)
  }

  lemma RunIsSettled(caps: Capacities, nodes: nat, records: seq<TraceRecord>, nodeOf: seq<nat>, node: nat)
      returns (own: seq<Slot>, shared: seq<Slot>)
    requires Assigned(nodes, records, nodeOf) && node < nodes
    ensures Distinct(own) && Distinct(shared)
    ensures ViewOf(Run(caps, nodes, records, nodeOf), node) == Settled(caps, own, shared)
    ensures DistinctView(ViewOf(Run(caps, nodes, records, nodeOf), node))
  {
    own, shared := WriteStack(records, nodeOf, Some(node)), WriteStack(records, nodeOf, None);
    WriteStackDistinct(records, nodeOf, Some(node));
    WriteStackDistinct(records, nodeOf, None);
    TiersShowNewestWrites(caps, nodes, records, nodeOf, node);
    SettledDistinct(caps, own, shared);
  }

  // On every trace the GPU, DRAM and FS counters are what these tiers provided.
  lemma {:induction false} RunShares(caps: Capacities, nodes: nat, records: seq<TraceRecord>, nodeOf: seq<nat>, tier: Tier)
    requires Assigned(nodes, records, nodeOf)
    ensures CountOf(RunTokens(caps, nodes, records, nodeOf), tier) == RunProvided(caps, nodes, records, nodeOf, tier)
  {
    if records != [] {
      var k := |records| - 1;
      RunShares(caps, nodes, records[..k], nodeOf[..k], tier);
      var _, _ := RunIsSettled(caps, nodes, records[..k], nodeOf[..k], nodeOf[k]);
      RecordShares(caps, ViewOf(Run(caps, nodes, records[..k], nodeOf[..k]), nodeOf[k]), records[k], tier);
    }
  }

  lemma {:induction false} EmptyProvidesNothing(caps: Capacities, node: seq<Slot>, shared: seq<Slot>, keys: seq<BlockId>,
                                                weights: seq<nat>, tier: Tier, n: nat)
    requires n <= |keys| == |weights| && Distinct(node) && Distinct(shared) && CapacityOf(caps, tier) == 0
    ensures Provided(caps, Settled(caps, node, shared), keys, weights, tier, n) == 0
  {
    if n > 0 {
      EmptyProvidesNothing(caps, node, shared, keys, weights, tier, n - 1);
      var _, _, _ := WalkPushesOwnBlocks(caps, node, shared, keys[..n - 1], SetOf(keys[..n - 1]));
      assert HeldBy(AtLookup(caps, Settled(caps, node, shared), keys, n - 1), tier) == {};
    }
  }

  // A tier of capacity 0 is credited with nothing.
  lemma {:induction false} EmptyTierGetsNothing(caps: Capacities, nodes: nat, records: seq<TraceRecord>, nodeOf: seq<nat>, tier: Tier)
    requires Assigned(nodes, records, nodeOf) && CapacityOf(caps, tier) == 0
    ensures CountOf(RunTokens(caps, nodes, records, nodeOf), tier) == 0
  {
    RunShares(caps, nodes, records, nodeOf, tier);
    if records != [] {
      var k, ids := |records| - 1, records[|records| - 1].hashIds;
      EmptyTierGetsNothing(caps, nodes, records[..k], nodeOf[..k], tier);
      RunShares(caps, nodes, records[..k], nodeOf[..k], tier);
      var own, shared := RunIsSettled(caps, nodes, records[..k], nodeOf[..k], nodeOf[k]);
      EmptyProvidesNothing(caps, own, shared, ids, BlockWeights(records[k].inputLength, |ids|), tier, |ids|);
    }
  }
}
