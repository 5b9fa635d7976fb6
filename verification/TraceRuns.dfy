/**
 Whole runs of the trace simulation: the caches after any number of records, the
 tokens counted, and the theorems the reported hit rates rest on.
 */
module TraceRuns {
  import opened Sets
  import opened Wrappers
  import opened Lru
  import opened Prefixes
  import opened Tiers

  // ------------------------------------------------------------ block weights

  // The input length spread over the blocks, the remainder over the first ones.
  function BlockWeights(inputLength: nat, blocks: nat): seq<nat> {
    if blocks == 0 then []
    else seq(blocks, i => if i < inputLength % blocks then inputLength / blocks + 1 else inputLength / blocks)
  }

  function SumTo(weights: seq<nat>, n: nat): nat
    requires n <= |weights|
  {
    if n == 0 then 0 else SumTo(weights, n - 1) + weights[n - 1]
  }

  lemma {:induction false} SumToMonotone(weights: seq<nat>, a: nat, b: nat)
    requires a <= b <= |weights|
    ensures SumTo(weights, a) <= SumTo(weights, b)
  {
    if a < b {
      SumToMonotone(weights, a, b - 1);
    }
  }

  lemma WeightsClosedForm(inputLength: nat, blocks: nat, n: nat)
    requires 0 < blocks && n <= blocks
    ensures SumTo(BlockWeights(inputLength, blocks), n) ==
            n * (inputLength / blocks) + (if n < inputLength % blocks then n else inputLength % blocks)
  {
    SumOfShares(BlockWeights(inputLength, blocks), inputLength / blocks, inputLength % blocks, n);
  }

  lemma {:induction false} SumOfShares(weights: seq<nat>, each: nat, extra: nat, n: nat)
    requires n <= |weights| && forall i :: 0 <= i < n ==> weights[i] == if i < extra then each + 1 else each
    ensures SumTo(weights, n) == n * each + (if n < extra then n else extra)
  {
    if n > 0 {
      SumOfShares(weights, each, extra, n - 1);
      assert n * each == (n - 1) * each + each;
    }
  }

  // The weights of a record's blocks add up to its input and differ by at most one.
  lemma WeightsAreFair(inputLength: nat, blocks: nat)
    requires 0 < blocks
    ensures var w := BlockWeights(inputLength, blocks);
            && |w| == blocks
            && SumTo(w, blocks) == inputLength
            && forall i, j :: 0 <= i <= j < blocks ==> w[j] <= w[i] <= w[j] + 1
  {
    WeightsClosedForm(inputLength, blocks, blocks);
  }

  // ---------------------------------------------------------------- counting

  datatype Tokens = Tokens(total: nat, gpu: nat, dram: nat, fs: nat, miss: nat) {
    function Hit(): nat { gpu + dram + fs }

    function Plus(t: Tokens): Tokens {
      Tokens(total + t.total, gpu + t.gpu, dram + t.dram, fs + t.fs, miss + t.miss)
    }
  }

  function TierTokens(hits: seq<CacheHit>, weights: seq<nat>, tier: Tier): nat
    requires |hits| <= |weights|
  {
    if hits == [] then 0
    else
      var n := |hits| - 1;
      TierTokens(hits[..n], weights, tier) + (if hits[n].tier == tier then weights[n] else 0)
  }

  lemma {:induction false} TierTokensSum(hits: seq<CacheHit>, weights: seq<nat>)
    requires |hits| <= |weights|
    ensures TierTokens(hits, weights, Gpu) + TierTokens(hits, weights, Dram) + TierTokens(hits, weights, Fs)
            == SumTo(weights, |hits|)
  {
    if hits != [] {
      TierTokensSum(hits[..|hits| - 1], weights);
    }
  }

  function MissTokens(weights: seq<nat>, hits: nat, upTo: nat): nat
    requires hits <= upTo <= |weights|
  {
    SumToMonotone(weights, hits, upTo);
    SumTo(weights, upTo) - SumTo(weights, hits)
  }

  function RecordTokens(record: TraceRecord, hits: seq<CacheHit>): Tokens
    requires |hits| <= |record.hashIds|
  {
    if record.hashIds == [] then Tokens(record.inputLength, 0, 0, 0, record.inputLength)
    else
      var weights := BlockWeights(record.inputLength, |record.hashIds|);
      Tokens(record.inputLength,
             TierTokens(hits, weights, Gpu), TierTokens(hits, weights, Dram), TierTokens(hits, weights, Fs),
             MissTokens(weights, |hits|, |weights|))
  }

  // A record's tokens are the hit tokens, tier by tier, and the missed ones.
  lemma RecordTokensConserved(record: TraceRecord, hits: seq<CacheHit>)
    requires |hits| <= |record.hashIds|
    ensures var t := RecordTokens(record, hits);
            && t.total == record.inputLength
            && t.Hit() + t.miss == t.total
            && t.Hit() == SumTo(BlockWeights(record.inputLength, |record.hashIds|), |hits|)
  {
    if record.hashIds != [] {
      var weights := BlockWeights(record.inputLength, |record.hashIds|);
      WeightsAreFair(record.inputLength, |record.hashIds|);
      TierTokensSum(hits, weights);
      SumToMonotone(weights, |hits|, |weights|);
    }
  }

  // -------------------------------------------------------------------- runs

  // The caches of all nodes.
  datatype World = World(gpu: seq<seq<Slot>>, dram: seq<seq<Slot>>, fs: seq<Slot>)

  ghost predicate Assigned(nodes: nat, records: seq<TraceRecord>, nodeOf: seq<nat>) {
    |nodeOf| == |records| && forall i :: 0 <= i < |nodeOf| ==> nodeOf[i] < nodes
  }

  function ViewOf(w: World, node: nat): View
    requires node < |w.gpu| == |w.dram|
  {
    View(w.gpu[node], w.dram[node], w.fs)
  }

  function Serve(caps: Capacities, w: World, node: nat, record: TraceRecord, index: nat): World
    requires node < |w.gpu| == |w.dram|
  {
    var v := Write(caps, WalkBlocks(caps, ViewOf(w, node), record.hashIds).view, record.hashIds, index);
    World(w.gpu[node := v.gpu], w.dram[node := v.dram], v.fs)
  }

  ghost function Run(caps: Capacities, nodes: nat, records: seq<TraceRecord>, nodeOf: seq<nat>): (w: World)
    requires Assigned(nodes, records, nodeOf)
    ensures |w.gpu| == |w.dram| == nodes
  {
    if records == [] then World(seq(nodes, i => []), seq(nodes, i => []), [])
    else
      var k := |records| - 1;
      Serve(caps, Run(caps, nodes, records[..k], nodeOf[..k]), nodeOf[k], records[k], k)
  }

  // The hits of the last record of a run.
  ghost function LastHits(caps: Capacities, nodes: nat, records: seq<TraceRecord>, nodeOf: seq<nat>): (h: seq<CacheHit>)
    requires Assigned(nodes, records, nodeOf) && records != []
    ensures |h| <= |records[|records| - 1].hashIds|
  {
    var k := |records| - 1;
    WalkBlocks(caps, ViewOf(Run(caps, nodes, records[..k], nodeOf[..k]), nodeOf[k]), records[k].hashIds).hits
  }

  ghost function RunTokens(caps: Capacities, nodes: nat, records: seq<TraceRecord>, nodeOf: seq<nat>): Tokens
    requires Assigned(nodes, records, nodeOf)
  {
    if records == [] then Tokens(0, 0, 0, 0, 0)
    else
      var k := |records| - 1;
      RunTokens(caps, nodes, records[..k], nodeOf[..k])
        .Plus(RecordTokens(records[k], LastHits(caps, nodes, records, nodeOf)))
  }

  function TotalInput(records: seq<TraceRecord>): nat {
    if records == [] then 0
    else TotalInput(records[..|records| - 1]) + records[|records| - 1].inputLength
  }

  // Conservation: on every trace every token is counted once, as a hit of one tier or a miss.
  lemma {:induction false} TokensConserved(caps: Capacities, nodes: nat, records: seq<TraceRecord>, nodeOf: seq<nat>)
    requires Assigned(nodes, records, nodeOf)
    ensures var t := RunTokens(caps, nodes, records, nodeOf);
            t.total == TotalInput(records) && t.Hit() + t.miss == t.total
  {
    if records != [] {
      var k := |records| - 1;
      TokensConserved(caps, nodes, records[..k], nodeOf[..k]);
      RecordTokensConserved(records[k], LastHits(caps, nodes, records, nodeOf));
    }
  }

  // ---------------------------------------------------- the stacks of writes

  // The LRU stack of the blocks written by the records of one node, or of all.
  ghost function WriteStack(records: seq<TraceRecord>, nodeOf: seq<nat>, node: Option<nat>): seq<Slot>
    requires |nodeOf| == |records|
  {
    if records == [] then []
    else
      var k := |records| - 1;
      var before := WriteStack(records[..k], nodeOf[..k], node);
      if node == None || node == Some(nodeOf[k]) then PushAll(before, records[k].hashIds, k) else before
  }

  ghost predicate Wrote(records: seq<TraceRecord>, nodeOf: seq<nat>, node: Option<nat>, i: nat, key: BlockId)
    requires |nodeOf| == |records|
  {
    i < |records| && key in records[i].hashIds && (node == None || node == Some(nodeOf[i]))
  }

  lemma {:induction false} WriteStackDistinct(records: seq<TraceRecord>, nodeOf: seq<nat>, node: Option<nat>)
    requires |nodeOf| == |records|
    ensures Distinct(WriteStack(records, nodeOf, node))
  {
    if records != [] {
      var k := |records| - 1;
      WriteStackDistinct(records[..k], nodeOf[..k], node);
      PushAllDistinct(WriteStack(records[..k], nodeOf[..k], node), records[k].hashIds, k);
    }
  }

  lemma {:induction false} PushAllSlots(s: seq<Slot>, keys: seq<BlockId>, producer: nat)
    ensures forall x :: x in PushAll(s, keys, producer) ==>
                          (x in s && x.key !in keys) || (x.key in keys && x.producer == producer)
    ensures forall key :: key in keys ==> Slot(key, producer) in PushAll(s, keys, producer)
    ensures forall x :: x in s && x.key !in keys ==> x in PushAll(s, keys, producer)
  {
    if keys != [] {
      var front, last := keys[..|keys| - 1], keys[|keys| - 1];
      PushAllSlots(s, front, producer);
      WithoutKeys(PushAll(s, front, producer), {last});
      assert keys == front + [last];
    }
  }

  // The stack holds every block written so far, with the latest record that wrote it.
  lemma {:induction false} StackNamesLatestWriter(records: seq<TraceRecord>, nodeOf: seq<nat>, node: Option<nat>)
    requires |nodeOf| == |records|
    ensures forall x :: x in WriteStack(records, nodeOf, node) <==>
                          && Wrote(records, nodeOf, node, x.producer, x.key)
                          && forall j :: x.producer < j < |records| ==> !Wrote(records, nodeOf, node, j, x.key)
  {
    var stack := WriteStack(records, nodeOf, node);
    if records == [] {
      return;
    }
    var k := |records| - 1;
    var before := WriteStack(records[..k], nodeOf[..k], node);
    StackNamesLatestWriter(records[..k], nodeOf[..k], node);
    assert forall i: nat, key :: i < k ==>
             (Wrote(records, nodeOf, node, i, key) <==> Wrote(records[..k], nodeOf[..k], node, i, key));
    if node == None || node == Some(nodeOf[k]) {
      PushAllSlots(before, records[k].hashIds, k);
    }
    forall x
      ensures x in stack <==>
              && Wrote(records, nodeOf, node, x.producer, x.key)
              && forall j :: x.producer < j < |records| ==> !Wrote(records, nodeOf, node, j, x.key)
    {
      if Wrote(records, nodeOf, node, k, x.key) {
        assert x in stack <==> x.producer == k;
      } else {
        assert x in stack <==> x in before;
        if x in before {
          forall j | x.producer < j < |records| ensures !Wrote(records, nodeOf, node, j, x.key) {
            if j < k { assert !Wrote(records[..k], nodeOf[..k], node, j, x.key); }
          }
        }
        if Wrote(records, nodeOf, node, x.producer, x.key) &&
           forall j :: x.producer < j < |records| ==> !Wrote(records, nodeOf, node, j, x.key) {
          forall j | x.producer < j < k ensures !Wrote(records[..k], nodeOf[..k], node, j, x.key) {
            assert !Wrote(records, nodeOf, node, j, x.key);
          }
        }
      }
    }
  }

  // The stack lemma: between records every tier shows exactly the newest blocks
  // of the writes made to it, whatever was looked up or promoted on the way.
  lemma {:induction false} TiersShowNewestWrites(caps: Capacities, nodes: nat, records: seq<TraceRecord>,
                                                 nodeOf: seq<nat>, node: nat)
    requires Assigned(nodes, records, nodeOf) && node < nodes
    ensures ViewOf(Run(caps, nodes, records, nodeOf), node) ==
            Settled(caps, WriteStack(records, nodeOf, Some(node)), WriteStack(records, nodeOf, None))
  {
    if records != [] {
      var k := |records| - 1;
      var rs, ns := records[..k], nodeOf[..k];
      TiersShowNewestWrites(caps, nodes, rs, ns, nodeOf[k]);
      TiersShowNewestWrites(caps, nodes, rs, ns, node);
      WriteStackDistinct(rs, ns, Some(nodeOf[k]));
      WriteStackDistinct(rs, ns, None);
      WriteSettles(caps, WriteStack(rs, ns, Some(nodeOf[k])), WriteStack(rs, ns, None), records[k].hashIds, k);
    }
  }

  // The hits of a record are determined by the stacks of the earlier records.
  lemma HitsFromStacks(caps: Capacities, nodes: nat, records: seq<TraceRecord>, nodeOf: seq<nat>)
      returns (own: seq<Slot>, shared: seq<Slot>)
    requires Assigned(nodes, records, nodeOf) && records != []
    ensures var k := |records| - 1;
            && own == WriteStack(records[..k], nodeOf[..k], Some(nodeOf[k]))
            && shared == WriteStack(records[..k], nodeOf[..k], None)
            && Distinct(own) && Distinct(shared)
            && KeySet(own) <= KeySet(shared)
            && LastHits(caps, nodes, records, nodeOf) ==
               WalkBlocks(caps, Settled(caps, own, shared), records[k].hashIds).hits
  {
    var k := |records| - 1;
    own := WriteStack(records[..k], nodeOf[..k], Some(nodeOf[k]));
    shared := WriteStack(records[..k], nodeOf[..k], None);
    WriteStackDistinct(records[..k], nodeOf[..k], Some(nodeOf[k]));
    WriteStackDistinct(records[..k], nodeOf[..k], None);
    TiersShowNewestWrites(caps, nodes, records[..k], nodeOf[..k], nodeOf[k]);
    OwnWithinShared(records[..k], nodeOf[..k], nodeOf[k]);
  }

  lemma {:induction false} OwnWithinShared(records: seq<TraceRecord>, nodeOf: seq<nat>, node: nat)
    requires |nodeOf| == |records|
    ensures KeySet(WriteStack(records, nodeOf, Some(node))) <= KeySet(WriteStack(records, nodeOf, None))
  {
    if records != [] {
      var k := |records| - 1;
      OwnWithinShared(records[..k], nodeOf[..k], node);
      WriteStackDistinct(records[..k], nodeOf[..k], Some(node));
      WriteStackDistinct(records[..k], nodeOf[..k], None);
      PushAllDistinct(WriteStack(records[..k], nodeOf[..k], Some(node)), records[k].hashIds, k);
      PushAllDistinct(WriteStack(records[..k], nodeOf[..k], None), records[k].hashIds, k);
    }
  }

  // ------------------------------------------------- hits come from the past

  ghost predicate InView(v: View, x: Slot) {
    x in v.gpu || x in v.dram || x in v.fs
  }

  lemma {:induction false} FindInside(s: seq<Slot>, key: BlockId)
    ensures Find(s, key).Some? ==> Slot(key, Find(s, key).value) in s
  {
    if s != [] {
      FindInside(s[..|s| - 1], key);
    }
  }

  lemma TouchInside(s: seq<Slot>, key: BlockId)
    ensures forall x :: x in Touch(s, key) ==> x in s
  {
    FindInside(s, key);
    WithoutKeys(s, {key});
  }

  lemma InsertInside(s: seq<Slot>, capacity: nat, y: Slot)
    ensures forall x :: x in Insert(s, capacity, y) ==> x in s || x == y
  {
    WithoutKeys(s, {y.key});
    assert forall x :: x in Newest(Push(s, y), capacity) ==> x in Push(s, y);
  }

  lemma StepInside(caps: Capacities, w: Walk, key: BlockId)
    ensures forall x :: InView(Step(caps, w, key).view, x) ==> InView(w.view, x)
    ensures |w.hits| <= |Step(caps, w, key).hits| <= |w.hits| + 1
    ensures Step(caps, w, key).hits[..|w.hits|] == w.hits
    ensures |Step(caps, w, key).hits| > |w.hits| ==>
              InView(w.view, Slot(key, Step(caps, w, key).hits[|w.hits|].producer))
  {
    var v := w.view;
    FindInside(v.gpu, key);
    FindInside(v.dram, key);
    FindInside(v.fs, key);
    TouchInside(v.gpu, key);
    TouchInside(v.dram, key);
    TouchInside(v.fs, key);
    forall p { InsertInside(v.gpu, caps.gpu, Slot(key, p)); }
    forall p { InsertInside(v.dram, caps.dram, Slot(key, p)); }
  }

  lemma {:induction false} WalkHitsInside(caps: Capacities, v: View, keys: seq<BlockId>)
    ensures forall x :: InView(WalkBlocks(caps, v, keys).view, x) ==> InView(v, x)
    ensures forall i :: 0 <= i < |WalkBlocks(caps, v, keys).hits| ==>
              InView(v, Slot(keys[i], WalkBlocks(caps, v, keys).hits[i].producer))
  {
    if keys != [] {
      var front, key := keys[..|keys| - 1], keys[|keys| - 1];
      WalkHitsInside(caps, v, front);
      var w := WalkBlocks(caps, v, front);
      StepInside(caps, w, key);
      var hits := WalkBlocks(caps, v, keys).hits;
      forall i | 0 <= i < |hits| ensures InView(v, Slot(keys[i], hits[i].producer)) {
        if i < |w.hits| {
          assert hits[..|w.hits|][i] == w.hits[i] && front[i] == keys[i];
        } else {
          assert w.available;
        }
      }
    }
  }

  // Every block a record hits was written by the earlier record the hit names.
  lemma HitsNameEarlierWriters(caps: Capacities, nodes: nat, records: seq<TraceRecord>, nodeOf: seq<nat>)
    requires Assigned(nodes, records, nodeOf) && records != []
    ensures var hits, ids := LastHits(caps, nodes, records, nodeOf), records[|records| - 1].hashIds;
            forall i :: 0 <= i < |hits| ==>
              && hits[i].producer < |records| - 1
              && ids[i] in records[hits[i].producer].hashIds
  {
    var k := |records| - 1;
    var own, shared := HitsFromStacks(caps, nodes, records, nodeOf);
    WalkHitsInside(caps, Settled(caps, own, shared), records[k].hashIds);
    StackNamesLatestWriter(records[..k], nodeOf[..k], Some(nodeOf[k]));
    StackNamesLatestWriter(records[..k], nodeOf[..k], None);
    forall x | InView(Settled(caps, own, shared), x)
      ensures x.producer < k && x.key in records[x.producer].hashIds
    {
      assert x in own || x in shared;
    }
  }

  // ------------------------------------------------------- comparing capacities

  ghost predicate HitsAtMost(less: Capacities, more: Capacities, nodes: nat, records: seq<TraceRecord>, nodeOf: seq<nat>)
    requires Assigned(nodes, records, nodeOf) && records != []
  {
    |LastHits(less, nodes, records, nodeOf)| <= |LastHits(more, nodes, records, nodeOf)|
  }

  // No record of the trace hits less under the second capacities.
  ghost predicate NeverHitsLess(less: Capacities, more: Capacities, nodes: nat, records: seq<TraceRecord>, nodeOf: seq<nat>)
    requires Assigned(nodes, records, nodeOf)
  {
    records == [] ||
    (HitsAtMost(less, more, nodes, records, nodeOf) &&
     NeverHitsLess(less, more, nodes, records[..|records| - 1], nodeOf[..|records| - 1]))
  }

  lemma {:induction false} NeverHitsLessFrom(less: Capacities, more: Capacities, nodes: nat,
                                             records: seq<TraceRecord>, nodeOf: seq<nat>, n: nat)
    requires Assigned(nodes, records, nodeOf) && n <= |records|
    requires forall k :: 0 < k <= n ==> HitsAtMost(less, more, nodes, records[..k], nodeOf[..k])
    ensures NeverHitsLess(less, more, nodes, records[..n], nodeOf[..n])
  {
    if n > 0 {
      NeverHitsLessFrom(less, more, nodes, records, nodeOf, n - 1);
      assert records[..n][..n - 1] == records[..n - 1] && nodeOf[..n][..n - 1] == nodeOf[..n - 1];
    }
  }

  lemma {:induction false} MoreHitsMoreTokens(less: Capacities, more: Capacities, nodes: nat,
                                              records: seq<TraceRecord>, nodeOf: seq<nat>)
    requires Assigned(nodes, records, nodeOf) && NeverHitsLess(less, more, nodes, records, nodeOf)
    ensures RunTokens(less, nodes, records, nodeOf).Hit() <= RunTokens(more, nodes, records, nodeOf).Hit()
  {
    if records != [] {
      MoreHitsMoreTokens(less, more, nodes, records[..|records| - 1], nodeOf[..|records| - 1]);
      MoreInLastRecord(less, more, nodes, records, nodeOf);
    }
  }

  lemma EachHitsMore(less: Capacities, more: Capacities, nodes: nat, records: seq<TraceRecord>, nodeOf: seq<nat>)
    requires Assigned(nodes, records, nodeOf)
    requires forall k :: 0 < k <= |records| ==> HitsAtMost(less, more, nodes, records[..k], nodeOf[..k])
    ensures RunTokens(less, nodes, records, nodeOf).Hit() <= RunTokens(more, nodes, records, nodeOf).Hit()
  {
    NeverHitsLessFrom(less, more, nodes, records, nodeOf, |records|);
    assert records[..|records|] == records && nodeOf[..|records|] == nodeOf;
    MoreHitsMoreTokens(less, more, nodes, records, nodeOf);
  }

  lemma MoreInLastRecord(less: Capacities, more: Capacities, nodes: nat, records: seq<TraceRecord>, nodeOf: seq<nat>)
    requires Assigned(nodes, records, nodeOf) && records != [] && HitsAtMost(less, more, nodes, records, nodeOf)
    requires var n := |records| - 1;
             RunTokens(less, nodes, records[..n], nodeOf[..n]).Hit() <= RunTokens(more, nodes, records[..n], nodeOf[..n]).Hit()
    ensures RunTokens(less, nodes, records, nodeOf).Hit() <= RunTokens(more, nodes, records, nodeOf).Hit()
  {
    RecordHitsMonotone(records[|records| - 1], LastHits(less, nodes, records, nodeOf), LastHits(more, nodes, records, nodeOf));
    LastAddsHits(less, nodes, records, nodeOf);
    LastAddsHits(more, nodes, records, nodeOf);
  }

  lemma RecordHitsMonotone(record: TraceRecord, few: seq<CacheHit>, many: seq<CacheHit>)
    requires |few| <= |many| <= |record.hashIds|
    ensures RecordTokens(record, few).Hit() <= RecordTokens(record, many).Hit()
  {
    RecordTokensConserved(record, few);
    RecordTokensConserved(record, many);
    if record.hashIds != [] {
      SumToMonotone(BlockWeights(record.inputLength, |record.hashIds|), |few|, |many|);
    }
  }

  lemma LastAddsHits(caps: Capacities, nodes: nat, records: seq<TraceRecord>, nodeOf: seq<nat>)
    requires Assigned(nodes, records, nodeOf) && records != []
    ensures var n := |records| - 1;
            RunTokens(caps, nodes, records, nodeOf).Hit() ==
            RunTokens(caps, nodes, records[..n], nodeOf[..n]).Hit() + RecordTokens(records[n], LastHits(caps, nodes, records, nodeOf)).Hit()
  {
  }

  // What one record can hit, as bounds from the stacks of the earlier records.
  lemma RecordBounds(caps: Capacities, nodes: nat, records: seq<TraceRecord>, nodeOf: seq<nat>)
      returns (own: seq<Slot>, shared: seq<Slot>)
    requires Assigned(nodes, records, nodeOf) && records != []
    ensures var k, keys := |records| - 1, records[|records| - 1].hashIds;
            var n := |LastHits(caps, nodes, records, nodeOf)|;
            && own == WriteStack(records[..k], nodeOf[..k], Some(nodeOf[k]))
            && shared == WriteStack(records[..k], nodeOf[..k], None)
            && Distinct(own) && Distinct(shared)
            && LongestIn(keys, KeySet(Newest(own, Max(caps.gpu, caps.dram)))) <= n
            && LongestIn(keys, KeySet(Newest(shared, caps.fs))) <= n
            && n <= LongestIn(keys, KeySet(shared))
            && (caps.fs == 0 ==> n == LongestIn(keys, KeySet(Newest(own, Max(caps.gpu, caps.dram)))))
            && (own == shared ==> n == LongestIn(keys, KeySet(Newest(own, Max(Max(caps.gpu, caps.dram), caps.fs)))))
  {
    var keys := records[|records| - 1].hashIds;
    own, shared := HitsFromStacks(caps, nodes, records, nodeOf);
    SettledHits(caps, own, shared, keys);
    NewestDistinct(own, Max(caps.gpu, caps.dram));
    NewestDistinct(shared, caps.fs);
    var mine, fs := KeySet(Newest(own, Max(caps.gpu, caps.dram))), KeySet(Newest(shared, caps.fs));
    LongestInMonotone(keys, mine + fs, KeySet(shared));
    if caps.fs == 0 {
      assert mine + fs == mine;
    }
    if own == shared {
      SingleStackHits(caps, own, keys);
    }
  }

  lemma MoreOwnMoreHits(less: Capacities, more: Capacities, nodes: nat, records: seq<TraceRecord>, nodeOf: seq<nat>)
    requires Assigned(nodes, records, nodeOf) && records != []
    requires less.fs == 0 && Max(less.gpu, less.dram) <= Max(more.gpu, more.dram)
    ensures HitsAtMost(less, more, nodes, records, nodeOf)
  {
    var own, shared := RecordBounds(less, nodes, records, nodeOf);
    var _, _ := RecordBounds(more, nodes, records, nodeOf);
    NewestMonotone(own, Max(less.gpu, less.dram), Max(more.gpu, more.dram));
    LongestInMonotone(records[|records| - 1].hashIds, KeySet(Newest(own, Max(less.gpu, less.dram))),
                      KeySet(Newest(own, Max(more.gpu, more.dram))));
  }

  lemma OneNodeHits(caps: Capacities, records: seq<TraceRecord>, nodeOf: seq<nat>) returns (own: seq<Slot>)
    requires Assigned(1, records, nodeOf) && records != []
    ensures own == WriteStack(records[..|records| - 1], nodeOf[..|records| - 1], None) && Distinct(own)
    ensures |LastHits(caps, 1, records, nodeOf)| ==
            LongestIn(records[|records| - 1].hashIds, KeySet(Newest(own, Max(Max(caps.gpu, caps.dram), caps.fs))))
  {
    var shared;
    own, shared := RecordBounds(caps, 1, records, nodeOf);
    OneNodeOneStack(records[..|records| - 1], nodeOf[..|records| - 1]);
    assert nodeOf[|records| - 1] == 0;
  }

  lemma MoreOneNodeMoreHits(less: Capacities, more: Capacities, records: seq<TraceRecord>, nodeOf: seq<nat>)
    requires Assigned(1, records, nodeOf) && records != []
    requires Max(Max(less.gpu, less.dram), less.fs) <= Max(Max(more.gpu, more.dram), more.fs)
    ensures HitsAtMost(less, more, 1, records, nodeOf)
  {
    var own := OneNodeHits(less, records, nodeOf);
    var _ := OneNodeHits(more, records, nodeOf);
    var few, many := Max(Max(less.gpu, less.dram), less.fs), Max(Max(more.gpu, more.dram), more.fs);
    NewestMonotone(own, few, many);
    LongestInMonotone(records[|records| - 1].hashIds, KeySet(Newest(own, few)), KeySet(Newest(own, many)));
  }

  lemma AmpleFsMostHits(less: Capacities, more: Capacities, nodes: nat, records: seq<TraceRecord>, nodeOf: seq<nat>)
    requires Assigned(nodes, records, nodeOf) && records != []
    requires |WriteStack(records[..|records| - 1], nodeOf[..|records| - 1], None)| <= more.fs
    ensures HitsAtMost(less, more, nodes, records, nodeOf)
  {
    var own, shared := RecordBounds(less, nodes, records, nodeOf);
    var _, _ := RecordBounds(more, nodes, records, nodeOf);
    assert Newest(shared, more.fs) == shared;
  }

  lemma {:induction false} OneNodeOneStack(records: seq<TraceRecord>, nodeOf: seq<nat>)
    requires Assigned(1, records, nodeOf)
    ensures WriteStack(records, nodeOf, Some(0)) == WriteStack(records, nodeOf, None)
  {
    if records != [] {
      OneNodeOneStack(records[..|records| - 1], nodeOf[..|records| - 1]);
    }
  }

  function UniqueBlocks(records: seq<TraceRecord>): set<BlockId> {
    set r, key | r in records && key in r.hashIds :: key
  }

  lemma {:induction false} DistinctSize(s: seq<Slot>)
    requires Distinct(s)
    ensures |KeySet(s)| == |s|
  {
    if s != [] {
      var front, last := s[..|s| - 1], s[|s| - 1];
      DistinctSize(front);
      assert s == front + [last];
      KeySetConcat(front, [last]);
      assert KeySet(s) == KeySet(front) + {last.key};
      assert last.key !in KeySet(front);
    }
  }

  // The stack of all writes never outgrows the number of distinct blocks of the trace.
  lemma SharedFits(records: seq<TraceRecord>, nodeOf: seq<nat>, k: nat)
    requires |nodeOf| == |records| && k <= |records|
    ensures |WriteStack(records[..k], nodeOf[..k], None)| <= |UniqueBlocks(records)|
  {
    var shared := WriteStack(records[..k], nodeOf[..k], None);
    WriteStackDistinct(records[..k], nodeOf[..k], None);
    DistinctSize(shared);
    StackNamesLatestWriter(records[..k], nodeOf[..k], None);
    forall key | key in KeySet(shared) ensures key in UniqueBlocks(records) {
      var x :| x in shared && x.key == key;
      assert records[x.producer] in records;
    }
    SubsetSize(KeySet(shared), UniqueBlocks(records));
  }

  // ------------------------------------------------------------ main results

  // With one node the hit tokens grow with the largest capacity, and with nothing else.
  lemma OneNodeMonotone(less: Capacities, more: Capacities, records: seq<TraceRecord>, nodeOf: seq<nat>)
    requires Assigned(1, records, nodeOf)
    requires Max(Max(less.gpu, less.dram), less.fs) <= Max(Max(more.gpu, more.dram), more.fs)
    ensures RunTokens(less, 1, records, nodeOf).Hit() <= RunTokens(more, 1, records, nodeOf).Hit()
  {
    forall k | 0 < k <= |records| ensures HitsAtMost(less, more, 1, records[..k], nodeOf[..k]) {
      MoreOneNodeMoreHits(less, more, records[..k], nodeOf[..k]);
    }
    EachHitsMore(less, more, 1, records, nodeOf);
  }

  // With one node, the three tiers together hit exactly what one LRU cache of
  // the largest tier's capacity hits, token for token.
  lemma OneNodeIsOneLru(caps: Capacities, records: seq<TraceRecord>, nodeOf: seq<nat>)
    requires Assigned(1, records, nodeOf)
    ensures RunTokens(caps, 1, records, nodeOf).Hit() ==
            RunTokens(Capacities(Max(Max(caps.gpu, caps.dram), caps.fs), 0, 0), 1, records, nodeOf).Hit()
  {
    var one := Capacities(Max(Max(caps.gpu, caps.dram), caps.fs), 0, 0);
    OneNodeMonotone(caps, one, records, nodeOf);
    OneNodeMonotone(one, caps, records, nodeOf);
  }

  lemma MaximumHitsMost(caps: Capacities, unique: nat, nodes: nat, records: seq<TraceRecord>, nodeOf: seq<nat>, k: nat)
    requires Assigned(nodes, records, nodeOf) && 0 < k <= |records| && unique == |UniqueBlocks(records)|
    ensures HitsAtMost(caps, Capacities(unique, unique, unique), nodes, records[..k], nodeOf[..k])
  {
    SharedFits(records, nodeOf, k - 1);
    assert records[..k][..k - 1] == records[..k - 1] && nodeOf[..k][..k - 1] == nodeOf[..k - 1];
    AmpleFsMostHits(caps, Capacities(unique, unique, unique), nodes, records[..k], nodeOf[..k]);
  }

  // The four reported configurations never lose hits from one to the next.
  lemma FourRatesOrdered(gpu: nat, dram: nat, fs: nat, nodes: nat, records: seq<TraceRecord>, nodeOf: seq<nat>)
    requires Assigned(nodes, records, nodeOf)
    ensures var unique := |UniqueBlocks(records)|;
            RunTokens(Capacities(gpu, 0, 0), nodes, records, nodeOf).Hit()
            <= RunTokens(Capacities(gpu, dram, 0), nodes, records, nodeOf).Hit()
            <= RunTokens(Capacities(gpu, dram, fs), nodes, records, nodeOf).Hit()
            <= RunTokens(Capacities(unique, unique, unique), nodes, records, nodeOf).Hit()
  {
    var unique := |UniqueBlocks(records)|;
    MoreOwnMoreTokens(Capacities(gpu, 0, 0), Capacities(gpu, dram, 0), nodes, records, nodeOf);
    MoreOwnMoreTokens(Capacities(gpu, dram, 0), Capacities(gpu, dram, fs), nodes, records, nodeOf);
    MaximumMostTokens(Capacities(gpu, dram, fs), unique, nodes, records, nodeOf);
  }

  lemma MoreOwnMoreTokens(less: Capacities, more: Capacities, nodes: nat, records: seq<TraceRecord>, nodeOf: seq<nat>)
    requires Assigned(nodes, records, nodeOf)
    requires less.fs == 0 && Max(less.gpu, less.dram) <= Max(more.gpu, more.dram)
    ensures RunTokens(less, nodes, records, nodeOf).Hit() <= RunTokens(more, nodes, records, nodeOf).Hit()
  {
    forall k | 0 < k <= |records| ensures HitsAtMost(less, more, nodes, records[..k], nodeOf[..k]) {
      MoreOwnMoreHits(less, more, nodes, records[..k], nodeOf[..k]);
    }
    EachHitsMore(less, more, nodes, records, nodeOf);
  }

  lemma MaximumMostTokens(caps: Capacities, unique: nat, nodes: nat, records: seq<TraceRecord>, nodeOf: seq<nat>)
    requires Assigned(nodes, records, nodeOf) && unique == |UniqueBlocks(records)|
    ensures RunTokens(caps, nodes, records, nodeOf).Hit() <=
            RunTokens(Capacities(unique, unique, unique), nodes, records, nodeOf).Hit()
  {
    var most := Capacities(unique, unique, unique);
    forall k | 0 < k <= |records| ensures HitsAtMost(caps, most, nodes, records[..k], nodeOf[..k]) {
      MaximumHitsMost(caps, unique, nodes, records, nodeOf, k);
    }
    EachHitsMore(caps, most, nodes, records, nodeOf);
  }
}
