/**
 The scheduler side of the direct connector: how much of a request is matched in the
 external store, and which blocks each scheduling step loads and dumps.
 */
module DirectScheduler {
  import opened Wrappers
  import opened Prefixes
  import opened HashChain
  import opened Arithmetic

  datatype RequestMeta = RequestMeta(ucmBlockIds: seq<Hash>, hbmHitBlockNum: nat, totalHitBlockNum: nat,
                                     numTokenIds: nat, vllmBlockIds: seq<nat>, tokenProcessed: nat)

  // Parallel lists of store keys and device blocks.
  datatype Transfer = Transfer(ids: seq<Hash>, blocks: seq<nat>)

  datatype Plan = Plan(load: Transfer, dump: Transfer)

  datatype Config = Config(blockSize: nat, recomputeTokens: nat, persistTokenThreshold: nat, seed: Hash,
                           rank: nat, isMla: bool)

  ghost predicate ValidConfig(c: Config) {
    0 < c.blockSize && c.seed.Seed?
  }

  // The external tokens promised when `hitTokens` of `totalHitTokens` come from the
  // store: enough of them are given up to leave the tokens the engine must recompute.
  function Promised(numTokens: nat, totalHitTokens: nat, hitTokens: nat, recomputeTokens: nat): nat {
    var recomputed := numTokens - totalHitTokens;
    var deficit := if recomputed < recomputeTokens then recomputeTokens - recomputed else 0;
    if hitTokens >= deficit then hitTokens - deficit else 0
  }

  // The outcome of matching a request: its new bookkeeping and the external tokens
  // promised to the engine; None when the request is left untracked. `present` is
  // what the store answers from, None when the lookup fails.
  function Match(c: Config, tokens: seq<Token>, numComputedTokens: nat, present: Option<set<Hash>>)
      : (r: Option<(RequestMeta, nat)>)
    requires 0 < c.blockSize
  {
    var hbm := BlocksIn(numComputedTokens, c.blockSize);
    var ids := Chain(0, c.blockSize, tokens, c.seed);
    if c.persistTokenThreshold > |tokens| || |ids| <= hbm then None
    else
      var hits := if present.None? then 0 else LongestIn(ids[hbm..], present.value);
      Some(Recorded(c, ids, |tokens|, hbm, hits))
  }

  // The bookkeeping of a match of some blocks beyond those on the device.
  function Recorded(c: Config, ids: seq<Hash>, numTokens: nat, hbm: nat, hits: nat): (RequestMeta, nat) {
    var external := Promised(numTokens, (hbm + hits) * c.blockSize, hits * c.blockSize, c.recomputeTokens);
    (RequestMeta(ids, hbm, hbm + hits, numTokens, [], hbm * c.blockSize + external), external)
  }

  // One scheduling step of a tracked request.
  function Dispatch(blockSize: nat, m: RequestMeta, newTokens: nat, vllmBlockIds: seq<nat>, needLoad: bool)
      : (r: (RequestMeta, Plan))
    requires 0 < blockSize
  {
    var table := m.vllmBlockIds + vllmBlockIds;
    var load :=
      if needLoad
      then Transfer(Slice(m.ucmBlockIds, m.hbmHitBlockNum, m.totalHitBlockNum),
                    Slice(vllmBlockIds, m.hbmHitBlockNum, m.totalHitBlockNum))
      else Transfer([], []);
    if m.tokenProcessed < m.numTokenIds then
      var start, end := BlocksIn(m.tokenProcessed, blockSize), BlocksIn(m.tokenProcessed + newTokens, blockSize);
      var ids, blocks := Slice(m.ucmBlockIds, start, end), Slice(table, start, end);
      var processed := m.tokenProcessed + newTokens;
      (m.(vllmBlockIds := table, tokenProcessed := processed),
       Plan(load, Transfer(ids, if processed > m.numTokenIds then Slice(blocks, 0, |ids|) else blocks)))
    else
      (m.(vllmBlockIds := table), Plan(load, Transfer([], [])))
  }

  class UCMDirectConnector {
    const config: Config
    var requestsMeta: map<nat, RequestMeta>

    constructor (config: Config)
      ensures this.config == config && requestsMeta == map[]
    {
      this.config := config;
      requestsMeta := map[];
    }

    method GetNumNewMatchedTokens(requestId: nat, tokens: seq<Token>, numComputedTokens: nat, present: Option<set<Hash>>)
        returns (external: nat)
      requires ValidConfig(config) && numComputedTokens % config.blockSize == 0
      modifies this
      ensures var r := Match(config, tokens, numComputedTokens, present);
              if r.None? then external == 0 && requestsMeta == old(requestsMeta)
              else external == r.value.1 && requestsMeta == old(requestsMeta)[requestId := r.value.0]
    {
      var hbm := numComputedTokens / config.blockSize;
      BlocksInIsQuotient(numComputedTokens, config.blockSize);
      var ids := GenerateHash(0, config.blockSize, tokens, config.seed);
      if config.persistTokenThreshold > |tokens| {
        return 0;
      }
      if |ids| <= hbm {
        return 0;
      }
      var hits := 0;
      if present.Some? {
        hits := LookupOnPrefix(ids[hbm..], present.value);
      }
      var meta;
      meta, external := Bookkeep(ids, |tokens|, hbm, hits);
      requestsMeta := requestsMeta[requestId := meta];
    }

    method Bookkeep(ids: seq<Hash>, numTokens: nat, hbm: nat, hits: nat) returns (meta: RequestMeta, external: nat)
      ensures (meta, external) == Recorded(config, ids, numTokens, hbm, hits)
    {
      external := LeaveTokens(numTokens, (hbm + hits) * config.blockSize, hits * config.blockSize, config.recomputeTokens);
      meta := RequestMeta(ids, hbm, hbm + hits, numTokens, [], hbm * config.blockSize + external);
    }

    // Gives up external tokens until enough are left to recompute.
    static method LeaveTokens(numTokens: nat, totalHitTokens: nat, hitTokens: nat, recomputeTokens: nat) returns (external: nat)
      ensures external == Promised(numTokens, totalHitTokens, hitTokens, recomputeTokens)
    {
      external := hitTokens;
      var recomputed := numTokens - totalHitTokens;
      if recomputed < recomputeTokens {
        var deficit := recomputeTokens - recomputed;
        external := if external >= deficit then external - deficit else 0;
      }
    }

    // The store's prefix lookup: the number of leading keys it holds.
    static method LookupOnPrefix(ids: seq<Hash>, present: set<Hash>) returns (n: nat)
      ensures n == LongestIn(ids, present)
    {
      n := 0;
      while n < |ids| && ids[n] in present
        invariant n <= |ids| && forall i :: 0 <= i < n ==> ids[i] in present
      {
        n := n + 1;
      }
    }

    method GenerateDispatchMeta(requestId: nat, newTokens: nat, vllmBlockIds: seq<nat>, needLoad: bool)
        returns (plan: Option<Plan>)
      requires ValidConfig(config)
      modifies this
      ensures requestId !in old(requestsMeta) ==> plan == None && requestsMeta == old(requestsMeta)
      ensures requestId in old(requestsMeta) ==>
                var r := Dispatch(config.blockSize, old(requestsMeta)[requestId], newTokens, vllmBlockIds, needLoad);
                plan == Some(r.1) && requestsMeta == old(requestsMeta)[requestId := r.0]
    {
      if requestId !in requestsMeta {
        return None;
      }
      var m := requestsMeta[requestId];
      m := m.(vllmBlockIds := m.vllmBlockIds + vllmBlockIds);
      var load, dump := Transfer([], []), Transfer([], []);
      if needLoad {
        load := Transfer(Slice(m.ucmBlockIds, m.hbmHitBlockNum, m.totalHitBlockNum),
                         Slice(vllmBlockIds, m.hbmHitBlockNum, m.totalHitBlockNum));
      }
      if m.tokenProcessed < m.numTokenIds {
        var start := m.tokenProcessed / config.blockSize;
        var end := (m.tokenProcessed + newTokens) / config.blockSize;
        BlocksInIsQuotient(m.tokenProcessed, config.blockSize);
        BlocksInIsQuotient(m.tokenProcessed + newTokens, config.blockSize);
        dump := Transfer(Slice(m.ucmBlockIds, start, end), Slice(m.vllmBlockIds, start, end));
        m := m.(tokenProcessed := m.tokenProcessed + newTokens);
        if m.tokenProcessed > m.numTokenIds {
          dump := dump.(blocks := Slice(dump.blocks, 0, |dump.ids|));
        }
      }
      requestsMeta := requestsMeta[requestId := m];
      plan := Some(Plan(load, dump));
    }
  }

  // ------------------------------------------------------------ what is matched

  lemma MatchArithmetic(blockSize: nat, computed: nat, numTokens: nat, hits: nat)
    requires 0 < blockSize && computed % blockSize == 0
    requires BlocksIn(computed, blockSize) + hits <= BlocksIn(numTokens, blockSize)
    ensures BlocksIn(computed, blockSize) * blockSize == computed
    ensures (BlocksIn(computed, blockSize) + hits) * blockSize == computed + hits * blockSize <= numTokens
  {
    var q, n := BlocksIn(computed, blockSize), BlocksIn(numTokens, blockSize);
    WholeBlocks(computed, blockSize);
    BlocksInBounds(numTokens, blockSize);
    MulMonotone(q + hits, n, blockSize);
    Distribute(q, hits, blockSize);
  }

  // A promise that lies on what was hit and leaves the tokens to recompute.
  ghost predicate CanPromise(numTokens: nat, totalHitTokens: nat, computed: nat, recomputeTokens: nat, external: nat) {
    computed + external <= totalHitTokens && computed + external + recomputeTokens <= numTokens
  }

  ghost predicate LargestPromise(numTokens: nat, totalHitTokens: nat, computed: nat, recomputeTokens: nat, external: nat) {
    && (external > 0 ==> CanPromise(numTokens, totalHitTokens, computed, recomputeTokens, external))
    && (forall x: nat :: CanPromise(numTokens, totalHitTokens, computed, recomputeTokens, x) ==> x <= external)
  }

  lemma PromiseLeaves(numTokens: nat, totalHitTokens: nat, hitTokens: nat, recomputeTokens: nat)
    requires hitTokens <= totalHitTokens <= numTokens
    ensures var external := Promised(numTokens, totalHitTokens, hitTokens, recomputeTokens);
            && external <= hitTokens
            && LargestPromise(numTokens, totalHitTokens, totalHitTokens - hitTokens, recomputeTokens, external)
  {
  }

  // A match whose promise lies on what was hit and leaves the tokens to recompute, and is
  // the largest such promise.
  ghost predicate LeavesTokens(c: Config, numTokens: nat, computed: nat, m: RequestMeta, external: nat) {
    && m.hbmHitBlockNum * c.blockSize == computed
    && m.tokenProcessed == computed + external <= m.totalHitBlockNum * c.blockSize
    && m.tokenProcessed <= numTokens
    && (m.totalHitBlockNum == m.hbmHitBlockNum ==> external == 0)
    && LargestPromise(numTokens, m.totalHitBlockNum * c.blockSize, computed, c.recomputeTokens, external)
  }

  lemma RecordedLeaves(c: Config, ids: seq<Hash>, numTokens: nat, computed: nat, hits: nat)
    requires 0 < c.blockSize && computed % c.blockSize == 0
    requires BlocksIn(computed, c.blockSize) + hits <= BlocksIn(numTokens, c.blockSize)
    ensures var (m, external) := Recorded(c, ids, numTokens, BlocksIn(computed, c.blockSize), hits);
            LeavesTokens(c, numTokens, computed, m, external)
  {
    var hbm := BlocksIn(computed, c.blockSize);
    MatchArithmetic(c.blockSize, computed, numTokens, hits);
    PromiseLeaves(numTokens, (hbm + hits) * c.blockSize, hits * c.blockSize, c.recomputeTokens);
  }

  // A recorded match is the longest stored extension of the computed prefix, and
  // whatever is promised leaves the required number of tokens to recompute.
  lemma MatchIsLongest(c: Config, tokens: seq<Token>, numComputedTokens: nat, present: Option<set<Hash>>)
    requires ValidConfig(c) && numComputedTokens % c.blockSize == 0
    ensures var r := Match(c, tokens, numComputedTokens, present);
            var ids := Chain(0, c.blockSize, tokens, c.seed);
            && (r.Some? <==> c.persistTokenThreshold <= |tokens| && BlocksIn(numComputedTokens, c.blockSize) < |ids|)
            && (r.Some? ==> LeavesTokens(c, |tokens|, numComputedTokens, r.value.0, r.value.1))
            && (r.Some? ==> IsLongestMatch(|tokens|, ids, BlocksIn(numComputedTokens, c.blockSize), present, r.value.0))
  {
    var ids, hbm := Chain(0, c.blockSize, tokens, c.seed), BlocksIn(numComputedTokens, c.blockSize);
    if Match(c, tokens, numComputedTokens, present).Some? {
      var hits := if present.None? then 0 else LongestIn(ids[hbm..], present.value);
      RecordedLeaves(c, ids, |tokens|, numComputedTokens, hits);
      if present.Some? {
        LongestInTail(ids, hbm, present.value);
      }
    }
  }

  // The match covers the blocks on the device and the longest run of stored blocks after
  // them; nothing when the lookup fails.
  ghost predicate IsLongestMatch(numTokens: nat, ids: seq<Hash>, hbm: nat, present: Option<set<Hash>>, m: RequestMeta) {
    && m.ucmBlockIds == ids && m.vllmBlockIds == [] && m.numTokenIds == numTokens
    && m.hbmHitBlockNum == hbm <= m.totalHitBlockNum <= |ids|
    && (present.Some? ==> forall i :: hbm <= i < m.totalHitBlockNum ==> ids[i] in present.value)
    && (present.Some? && m.totalHitBlockNum < |ids| ==> ids[m.totalHitBlockNum] !in present.value)
    && (present.None? ==> m.totalHitBlockNum == hbm)
  }

  lemma LongestInTail(ids: seq<Hash>, from: nat, inside: set<Hash>)
    requires from <= |ids|
    ensures var total := from + LongestIn(ids[from..], inside);
            && total <= |ids|
            && (forall i :: from <= i < total ==> ids[i] in inside)
            && (total < |ids| ==> ids[total] !in inside)
  {
    forall i | from <= i < from + LongestIn(ids[from..], inside) ensures ids[i] in inside {
      assert ids[from..][i - from] == ids[i];
    }
  }

  // ----------------------------------------------------- schedule independence

  // One step's share of the schedule: tokens to process and newly allocated blocks.
  datatype Chunk = Chunk(newTokens: nat, vllm: seq<nat>)

  datatype Dumped = Dumped(meta: RequestMeta, all: Transfer)

  function DumpAll(blockSize: nat, m: RequestMeta, chunks: seq<Chunk>): Dumped
    requires 0 < blockSize
  {
    if chunks == [] then Dumped(m, Transfer([], []))
    else
      var before := DumpAll(blockSize, m, chunks[..|chunks| - 1]);
      var c := chunks[|chunks| - 1];
      var r := Dispatch(blockSize, before.meta, c.newTokens, c.vllm, |chunks| == 1);
      Dumped(r.0, Transfer(before.all.ids + r.1.dump.ids, before.all.blocks + r.1.dump.blocks))
  }

  function Min(a: nat, b: nat): nat { if a <= b then a else b }

  // The engine has allocated a block for every token it schedules.
  ghost predicate Allocated(blockSize: nat, m: RequestMeta, chunks: seq<Chunk>)
    requires 0 < blockSize
  {
    chunks != [] ==>
      var front, c := chunks[..|chunks| - 1], chunks[|chunks| - 1];
      var before := DumpAll(blockSize, m, front).meta;
      && Allocated(blockSize, m, front)
      && (before.tokenProcessed < before.numTokenIds ==>
            BlocksIn(before.tokenProcessed + c.newTokens, blockSize) <= |before.vllmBlockIds + c.vllm|)
  }

  // Clipped slices of the ids and the table cover the same window.
  lemma WindowSlices(ids: seq<Hash>, table: seq<nat>, start: nat, stop: nat, end: nat, overshoot: bool)
    requires start <= end <= |ids| && stop <= |table|
    requires if overshoot then end == |ids| <= stop else stop == end
    ensures Slice(ids, start, stop) == ids[start..end]
    ensures (if overshoot then Slice(Slice(table, start, stop), 0, |ids[start..end]|) else Slice(table, start, stop))
            == table[start..end]
  {
  }

  lemma WindowBounds(blockSize: nat, processed: nat, newTokens: nat, numTokens: nat)
    requires 0 < blockSize && processed <= numTokens
    ensures var start, stop := BlocksIn(processed, blockSize), BlocksIn(processed + newTokens, blockSize);
            var end := BlocksIn(Min(processed + newTokens, numTokens), blockSize);
            && start <= end <= BlocksIn(numTokens, blockSize) && end <= stop
            && (processed + newTokens <= numTokens ==> stop == end)
            && (processed + newTokens > numTokens ==> end == BlocksIn(numTokens, blockSize))
  {
    BlocksInMonotone(processed, Min(processed + newTokens, numTokens), blockSize);
    BlocksInMonotone(Min(processed + newTokens, numTokens), numTokens, blockSize);
    BlocksInMonotone(Min(processed + newTokens, numTokens), processed + newTokens, blockSize);
  }

  // A step that is asked to load pairs every key of the hit with the new block of equal
  // index. Its new blocks always join the table, and past the last token nothing is dumped.
  lemma DispatchLoadsHit(blockSize: nat, m: RequestMeta, newTokens: nat, vllm: seq<nat>, needLoad: bool)
    requires 0 < blockSize
    ensures var r := Dispatch(blockSize, m, newTokens, vllm, needLoad);
            && r.0.vllmBlockIds == m.vllmBlockIds + vllm
            && (m.tokenProcessed >= m.numTokenIds ==> r.0.tokenProcessed == m.tokenProcessed && r.1.dump == Transfer([], []))
            && (!needLoad ==> r.1.load == Transfer([], []))
    ensures needLoad && m.hbmHitBlockNum <= m.totalHitBlockNum <= |m.ucmBlockIds| && m.totalHitBlockNum <= |vllm| ==>
              var load := Dispatch(blockSize, m, newTokens, vllm, needLoad).1.load;
              && |load.ids| == |load.blocks| == m.totalHitBlockNum - m.hbmHitBlockNum
              && forall i :: m.hbmHitBlockNum <= i < m.totalHitBlockNum ==>
                   load.ids[i - m.hbmHitBlockNum] == m.ucmBlockIds[i] && load.blocks[i - m.hbmHitBlockNum] == vllm[i]
  {
  }

  // A single step dumps the blocks completed by it, each with the block of its own index.
  lemma DispatchDumpsWindow(blockSize: nat, m: RequestMeta, newTokens: nat, vllm: seq<nat>, needLoad: bool)
    requires 0 < blockSize && m.tokenProcessed < m.numTokenIds
    requires |m.ucmBlockIds| == BlocksIn(m.numTokenIds, blockSize)
    requires BlocksIn(m.tokenProcessed + newTokens, blockSize) <= |m.vllmBlockIds + vllm|
    ensures var r := Dispatch(blockSize, m, newTokens, vllm, needLoad);
            var start, end := BlocksIn(m.tokenProcessed, blockSize), BlocksIn(Min(m.tokenProcessed + newTokens, m.numTokenIds), blockSize);
            && start <= end <= |m.ucmBlockIds| && end <= |m.vllmBlockIds + vllm|
            && r.0 == m.(vllmBlockIds := m.vllmBlockIds + vllm, tokenProcessed := m.tokenProcessed + newTokens)
            && r.1.dump == Transfer(m.ucmBlockIds[start..end], (m.vllmBlockIds + vllm)[start..end])
  {
    WindowBounds(blockSize, m.tokenProcessed, newTokens, m.numTokenIds);
    WindowSlices(m.ucmBlockIds, m.vllmBlockIds + vllm, BlocksIn(m.tokenProcessed, blockSize),
                 BlocksIn(m.tokenProcessed + newTokens, blockSize),
                 BlocksIn(Min(m.tokenProcessed + newTokens, m.numTokenIds), blockSize),
                 m.tokenProcessed + newTokens > m.numTokenIds);
  }

  // The dumps so far are one run of blocks, from the first unprocessed one to the
  // last full one reached, each id paired with the device block of the same index.
  ghost predicate OneRun(blockSize: nat, m: RequestMeta, d: Dumped)
    requires 0 < blockSize
  {
    OneRunWithin(m, d, BlocksIn(m.tokenProcessed, blockSize), BlocksIn(Min(d.meta.tokenProcessed, m.numTokenIds), blockSize))
  }

  ghost predicate OneRunWithin(m: RequestMeta, d: Dumped, start: nat, end: nat) {
    && d.meta == m.(vllmBlockIds := d.meta.vllmBlockIds, tokenProcessed := d.meta.tokenProcessed)
    && m.tokenProcessed <= d.meta.tokenProcessed && m.vllmBlockIds <= d.meta.vllmBlockIds
    && start <= end <= |m.ucmBlockIds|
    && (start < end ==> end <= |d.meta.vllmBlockIds|)
    && d.all.ids == m.ucmBlockIds[start..end]
    && d.all.blocks == if start < end then d.meta.vllmBlockIds[start..end] else []
  }

  lemma JoinWindows(ids: seq<Hash>, table: seq<nat>, longer: seq<nat>, start: nat, mid: nat, end: nat)
    requires start <= mid <= end <= |ids| && end <= |longer|
    requires table <= longer && (start < mid ==> mid <= |table|)
    ensures ids[start..mid] + ids[mid..end] == ids[start..end]
    ensures (if start < mid then table[start..mid] else []) + longer[mid..end] == longer[start..end]
  {
  }

  lemma RunGrows(m: RequestMeta, before: Dumped, processed: nat, vllm: seq<nat>, start: nat, mid: nat, end: nat)
    requires OneRunWithin(m, before, start, mid) && mid <= end <= |m.ucmBlockIds|
    requires end <= |before.meta.vllmBlockIds + vllm| && before.meta.tokenProcessed <= processed
    ensures var table := before.meta.vllmBlockIds + vllm;
            OneRunWithin(m, Dumped(before.meta.(vllmBlockIds := table, tokenProcessed := processed),
                                   Transfer(before.all.ids + m.ucmBlockIds[mid..end], before.all.blocks + table[mid..end])),
                         start, end)
  {
    var table := before.meta.vllmBlockIds + vllm;
    JoinWindows(m.ucmBlockIds, before.meta.vllmBlockIds, table, start, mid, end);
    if start == end {
      assert table[mid..end] == [];
    }
  }

  lemma OneRunStep(blockSize: nat, m: RequestMeta, before: Dumped, c: Chunk, needLoad: bool)
    requires 0 < blockSize && |m.ucmBlockIds| == BlocksIn(m.numTokenIds, blockSize)
    requires OneRun(blockSize, m, before)
    requires before.meta.tokenProcessed < m.numTokenIds ==>
               BlocksIn(before.meta.tokenProcessed + c.newTokens, blockSize) <= |before.meta.vllmBlockIds + c.vllm|
    ensures var r := Dispatch(blockSize, before.meta, c.newTokens, c.vllm, needLoad);
            OneRun(blockSize, m, Dumped(r.0, Transfer(before.all.ids + r.1.dump.ids, before.all.blocks + r.1.dump.blocks)))
  {
    if before.meta.tokenProcessed < m.numTokenIds {
      DispatchDumpsWindow(blockSize, before.meta, c.newTokens, c.vllm, needLoad);
      assert Min(before.meta.tokenProcessed, m.numTokenIds) == before.meta.tokenProcessed;
      var start := BlocksIn(m.tokenProcessed, blockSize);
      var mid := BlocksIn(before.meta.tokenProcessed, blockSize);
      var end := BlocksIn(Min(before.meta.tokenProcessed + c.newTokens, m.numTokenIds), blockSize);
      RunGrows(m, before, before.meta.tokenProcessed + c.newTokens, c.vllm, start, mid, end);
    } else {
      LateStep(blockSize, m, before, c, needLoad);
    }
  }

  // After the last token nothing more is dumped.
  lemma LateStep(blockSize: nat, m: RequestMeta, before: Dumped, c: Chunk, needLoad: bool)
    requires 0 < blockSize && OneRun(blockSize, m, before) && before.meta.tokenProcessed >= m.numTokenIds
    ensures var r := Dispatch(blockSize, before.meta, c.newTokens, c.vllm, needLoad);
            OneRun(blockSize, m, Dumped(r.0, Transfer(before.all.ids + r.1.dump.ids, before.all.blocks + r.1.dump.blocks)))
  {
    var start, end := BlocksIn(m.tokenProcessed, blockSize), BlocksIn(Min(before.meta.tokenProcessed, m.numTokenIds), blockSize);
    if start < end {
      assert (before.meta.vllmBlockIds + c.vllm)[start..end] == before.meta.vllmBlockIds[start..end];
    }
  }

  // Schedule independence: over any split into steps the dumps join to one run,
  // without gap or repetition.
  lemma {:induction false} DumpsAreOneRun(blockSize: nat, m: RequestMeta, chunks: seq<Chunk>)
    requires 0 < blockSize && m.tokenProcessed <= m.numTokenIds
    requires |m.ucmBlockIds| == BlocksIn(m.numTokenIds, blockSize)
    requires Allocated(blockSize, m, chunks)
    ensures OneRun(blockSize, m, DumpAll(blockSize, m, chunks))
  {
    if chunks == [] {
      BlocksInMonotone(m.tokenProcessed, m.numTokenIds, blockSize);
      assert Min(m.tokenProcessed, m.numTokenIds) == m.tokenProcessed;
    } else {
      var front, c := chunks[..|chunks| - 1], chunks[|chunks| - 1];
      DumpsAreOneRun(blockSize, m, front);
      OneRunStep(blockSize, m, DumpAll(blockSize, m, front), c, |chunks| == 1);
    }
  }

  // ------------------------------------------------- resuming after preemption

  // A resumed request is handed its whole new block table in one step. Its dumps
  // pair with that table when every full block goes with the entry of its own index.
  ghost predicate PairsWithTable(blockSize: nat, m: RequestMeta, newTokens: nat, table: seq<nat>)
    requires 0 < blockSize
  {
    var start, end := BlocksIn(m.tokenProcessed, blockSize), BlocksIn(Min(m.tokenProcessed + newTokens, m.numTokenIds), blockSize);
    m.tokenProcessed < m.numTokenIds && BlocksIn(m.tokenProcessed + newTokens, blockSize) <= |table| ==>
      Dispatch(blockSize, m, newTokens, table, true).1.dump.blocks == Slice(table, start, end)
  }

  // The pairing is right for every table exactly when the bookkeeping holds no
  // blocks from before the preemption.
  lemma ResumePairsIffTableFresh(blockSize: nat, m: RequestMeta)
    requires 0 < blockSize && |m.ucmBlockIds| == BlocksIn(m.numTokenIds, blockSize)
    requires BlocksIn(m.tokenProcessed, blockSize) < BlocksIn(m.numTokenIds, blockSize)
    ensures (forall newTokens, table :: PairsWithTable(blockSize, m, newTokens, table)) <==> m.vllmBlockIds == []
  {
    if m.vllmBlockIds == [] {
      FreshTablePairs(blockSize, m);
    } else {
      var newTokens, table := StaleTable(blockSize, m);
      assert !PairsWithTable(blockSize, m, newTokens, table);
    }
  }

  // A step that completes exactly one block.
  lemma ToNextBoundary(blockSize: nat, processed: nat, length: nat) returns (newTokens: nat)
    requires 0 < blockSize && BlocksIn(processed, blockSize) < BlocksIn(length, blockSize)
    ensures BlocksIn(processed + newTokens, blockSize) == BlocksIn(processed, blockSize) + 1
    ensures processed + newTokens <= length
  {
    var next := BlocksIn(processed, blockSize) + 1;
    BlocksInBounds(processed, blockSize);
    BlocksInBounds(length, blockSize);
    MulMonotone(next, BlocksIn(length, blockSize), blockSize);
    BlocksInMultiple(next, blockSize);
    newTokens := next * blockSize - processed;
  }

  // A step and a new table for which stale blocks shift the pairing.
  lemma StaleTable(blockSize: nat, m: RequestMeta) returns (newTokens: nat, table: seq<nat>)
    requires 0 < blockSize && |m.ucmBlockIds| == BlocksIn(m.numTokenIds, blockSize)
    requires BlocksIn(m.tokenProcessed, blockSize) < BlocksIn(m.numTokenIds, blockSize) && m.vllmBlockIds != []
    ensures !PairsWithTable(blockSize, m, newTokens, table)
  {
    var start := BlocksIn(m.tokenProcessed, blockSize);
    newTokens := ToNextBoundary(blockSize, m.tokenProcessed, m.numTokenIds);
    table := ShiftedTable(m.vllmBlockIds, start);
    DispatchDumpsWindow(blockSize, m, newTokens, table, true);
    assert Min(m.tokenProcessed + newTokens, m.numTokenIds) == m.tokenProcessed + newTokens;
  }

  // A table that differs at an entry from the same table behind stale blocks.
  lemma ShiftedTable(stale: seq<nat>, at: nat) returns (table: seq<nat>)
    requires stale != []
    ensures |table| == at + 1 && (stale + table)[at..at + 1] != Slice(table, at, at + 1)
  {
    table := if at < |stale| then seq(at + 1, i => stale[at] + 1) else seq(at + 1, i => i);
    assert (stale + table)[at..at + 1][0] != Slice(table, at, at + 1)[0];
  }

  // What is kept of a request that is matched again.
  function Kept(c: Config, kept: RequestMeta, tokens: seq<Token>, numComputedTokens: nat, present: Option<set<Hash>>): RequestMeta
    requires 0 < c.blockSize
  {
    match Match(c, tokens, numComputedTokens, present)
    case Some(r) => r.0
    case None => kept
  }

  // A preempted request that still has a block to dump is matched again before it
  // resumes. Its dumps then pair with its new table, whatever the table and the step,
  // exactly when the match does not return early: the request reaches the threshold and
  // has a full block beyond those on the device.
  lemma ResumePairsIffMatched(c: Config, kept: RequestMeta, tokens: seq<Token>, numComputedTokens: nat, present: Option<set<Hash>>)
    requires ValidConfig(c) && numComputedTokens % c.blockSize == 0
    requires kept.vllmBlockIds != [] && |kept.ucmBlockIds| == BlocksIn(kept.numTokenIds, c.blockSize)
    requires BlocksIn(kept.tokenProcessed, c.blockSize) < BlocksIn(kept.numTokenIds, c.blockSize)
    ensures (forall newTokens, table :: PairsWithTable(c.blockSize, Kept(c, kept, tokens, numComputedTokens, present), newTokens, table)) <==>
            c.persistTokenThreshold <= |tokens| && BlocksIn(numComputedTokens, c.blockSize) < BlocksIn(|tokens|, c.blockSize)
  {
    MatchedIsFresh(c, kept, tokens, numComputedTokens, present);
    var m := Kept(c, kept, tokens, numComputedTokens, present);
    if m.vllmBlockIds == [] {
      FreshTablePairs(c.blockSize, m);
    } else {
      ResumePairsIffTableFresh(c.blockSize, kept);
    }
  }

  lemma MatchedIsFresh(c: Config, kept: RequestMeta, tokens: seq<Token>, numComputedTokens: nat, present: Option<set<Hash>>)
    requires ValidConfig(c) && numComputedTokens % c.blockSize == 0 && kept.vllmBlockIds != []
    ensures var m := Kept(c, kept, tokens, numComputedTokens, present);
            && (m.vllmBlockIds == [] <==>
                  c.persistTokenThreshold <= |tokens| && BlocksIn(numComputedTokens, c.blockSize) < BlocksIn(|tokens|, c.blockSize))
            && (m.vllmBlockIds == [] ==> |m.ucmBlockIds| == BlocksIn(m.numTokenIds, c.blockSize))
            && (m.vllmBlockIds != [] ==> m == kept)
  {
    MatchIsLongest(c, tokens, numComputedTokens, present);
  }

  lemma FreshTablePairs(blockSize: nat, m: RequestMeta)
    requires 0 < blockSize && |m.ucmBlockIds| == BlocksIn(m.numTokenIds, blockSize) && m.vllmBlockIds == []
    ensures forall newTokens, table :: PairsWithTable(blockSize, m, newTokens, table)
  {
    forall newTokens, table ensures PairsWithTable(blockSize, m, newTokens, table) {
      if m.tokenProcessed < m.numTokenIds && BlocksIn(m.tokenProcessed + newTokens, blockSize) <= |table| {
        assert [] + table == table;
        DispatchDumpsWindow(blockSize, m, newTokens, table, true);
      }
    }
  }

  // An instance: of five tokens in blocks of two, one was processed into block 7 before
  // the request was preempted. When it resumes, four tokens are on the device, so the match
  // returns early; the step for the fifth token then dumps the request's first block from
  // block 7, which it no longer owns.
  lemma EarlyReturnKeepsStaleTable()
    ensures var c := Config(2, 1, 0, Seed(0), 0, false);
            var tokens := [1, 2, 3, 4, 5];
            var m := RequestMeta(Chain(0, 2, tokens, Seed(0)), 0, 0, 5, [7], 1);
            && Kept(c, m, tokens, 4, None) == m
            && Dispatch(2, m, 5 - 4, [1, 2, 3], true).1.dump == Transfer([Chain(0, 2, tokens, Seed(0))[0]], [7])
  {
    var tokens := [1, 2, 3, 4, 5];
    var ids := Chain(0, 2, tokens, Seed(0));
    assert BlocksIn(5, 2) == 2 && BlocksIn(4, 2) == 2 && BlocksIn(1, 2) == 0 && BlocksIn(2, 2) == 1;
    assert [7] + [1, 2, 3] == [7, 1, 2, 3];
    assert Slice([7, 1, 2, 3], 0, 1) == [7] && Slice(ids, 0, 1) == [ids[0]];
  }
}
