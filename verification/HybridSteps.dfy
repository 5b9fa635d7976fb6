/**
 The scheduling steps of the hybrid connector: which blocks and states of every cache
 group a step loads and dumps, and what a whole schedule dumps.
 */
module HybridSteps {
  import opened Wrappers
  import opened Prefixes
  import opened Arithmetic
  import opened HashChain
  import opened HybridLookup
  import opened HybridDispatch

  // --------------------------------------------------------------- block tables

  predicate EndsWith(table: seq<nat>, incoming: seq<nat>) {
    |incoming| <= |table| && table[|table| - |incoming|..] == incoming
  }

  // New blocks replace a table, or extend it unless it already ends with them.
  function UpdateTable(table: seq<nat>, incoming: seq<nat>, full: bool): seq<nat> {
    if full || table == [] then incoming
    else if incoming != [] && !EndsWith(table, incoming) then table + incoming
    else table
  }

  // An update after the allocation hook keeps the engine's table; without the hook it
  // reaches that table exactly when the incoming blocks do not repeat its end.
  lemma TableFollowsEngine(before: seq<nat>, incoming: seq<nat>)
    ensures incoming != [] ==> UpdateTable(before + incoming, incoming, false) == before + incoming
    ensures UpdateTable(before, incoming, false) == before + incoming <==>
            incoming == [] || before == [] || !EndsWith(before, incoming)
    ensures (exists b :: b in incoming && b !in before) ==> UpdateTable(before, incoming, false) == before + incoming
    ensures UpdateTable(before, incoming, false) == before || UpdateTable(before, incoming, false) == before + incoming
    ensures UpdateTable(before, incoming, true) == incoming
  {
    var engine := before + incoming;
    assert engine[|engine| - |incoming|..] == incoming;
    if EndsWith(before, incoming) {
      assert forall b :: b in incoming ==> b in before[|before| - |incoming|..];
      assert forall b :: b in incoming ==> b in before;
    }
  }

  // A second null placeholder in a row is lost.
  lemma RepeatedNullIsLost()
    ensures UpdateTable([7, 0], [0], false) == [7, 0] != [7, 0] + [0]
  {
    assert [7, 0][1..] == [0];
  }

  // -------------------------------------------------------------------- windows

  // The keys [from..to) with their blocks, null blocks and missing entries left out.
  function Window(ids: seq<Hash>, table: seq<nat>, from: nat, to: nat): seq<Pair>
    decreases (to)
  {
    if to <= from then []
    else
      var before := Window(ids, table, from, to - 1);
      if to <= |ids| && to <= |table| && table[to - 1] != 0 then before + [Pair(ids[to - 1], table[to - 1])] else before
  }

  ghost predicate Paired(ids: seq<Hash>, table: seq<nat>, i: nat, p: Pair) {
    i < |ids| && i < |table| && table[i] != 0 && p == Pair(ids[i], table[i])
  }

  lemma {:induction false} WindowMeaning(ids: seq<Hash>, table: seq<nat>, from: nat, to: nat, p: Pair)
    ensures p in Window(ids, table, from, to) <==> exists i :: from <= i < to && Paired(ids, table, i, p)
    decreases (to)
  {
    if from < to {
      WindowMeaning(ids, table, from, to - 1, p);
      assert Paired(ids, table, to - 1, p) <==> to <= |ids| && to <= |table| && table[to - 1] != 0 && p == Pair(ids[to - 1], table[to - 1]);
    }
  }

  lemma InWindow(ids: seq<Hash>, table: seq<nat>, from: nat, to: nat, i: nat)
    requires from <= i < to && i < |ids| && i < |table| && table[i] != 0
    ensures Pair(ids[i], table[i]) in Window(ids, table, from, to)
  {
    assert Paired(ids, table, i, Pair(ids[i], table[i]));
    WindowMeaning(ids, table, from, to, Pair(ids[i], table[i]));
  }

  lemma {:induction false} WindowSplits(ids: seq<Hash>, table: seq<nat>, from: nat, mid: nat, to: nat)
    requires from <= mid <= to
    ensures Window(ids, table, from, mid) + Window(ids, table, mid, to) == Window(ids, table, from, to)
    decreases (to)
  {
    if mid < to {
      WindowSplits(ids, table, from, mid, to - 1);
    }
  }

  lemma {:induction false} WindowKept(ids: seq<Hash>, small: seq<nat>, large: seq<nat>, from: nat, to: nat)
    requires small <= large && to <= |small|
    ensures Window(ids, small, from, to) == Window(ids, large, from, to)
    decreases (to)
  {
    if from < to {
      WindowKept(ids, small, large, from, to - 1);
    }
  }

  lemma {:induction false} WindowOfSlices(ids: seq<Hash>, table: seq<nat>, from: nat, to: nat, n: nat)
    requires from + n <= to
    ensures Window(Slice(ids, from, to), Slice(table, from, to), 0, n) == Window(ids, table, from, from + n)
  {
    if n > 0 {
      WindowOfSlices(ids, table, from, to, n - 1);
    }
  }

  lemma WindowOfSlice(ids: seq<Hash>, table: seq<nat>, from: nat, to: nat)
    requires from <= to
    ensures Window(Slice(ids, from, to), Slice(table, from, to), 0, |Slice(ids, from, to)|) == Window(ids, table, from, to)
  {
    WindowEnds(Slice(ids, from, to), Slice(table, from, to), |Slice(ids, from, to)|, to - from);
    WindowOfSlices(ids, table, from, to, to - from);
  }

  lemma {:induction false} WindowEnds(ids: seq<Hash>, table: seq<nat>, n: nat, to: nat)
    requires n <= to && (n >= |ids| || n >= |table|)
    ensures Window(ids, table, 0, n) == Window(ids, table, 0, to)
    decreases (to)
  {
    if n < to {
      WindowEnds(ids, table, n, to - 1);
    }
  }

  // Appends the pairs of two lists, leaving out null blocks.
  method ExtendNonNull(dst: seq<Pair>, ids: seq<Hash>, blocks: seq<nat>) returns (r: seq<Pair>)
    ensures r == dst + Window(ids, blocks, 0, |ids|)
  {
    r := dst;
    var i := 0;
    while i < |ids| && i < |blocks|
      invariant i <= |ids| && i <= |blocks| && r == dst + Window(ids, blocks, 0, i)
    {
      if blocks[i] != 0 {
        r := r + [Pair(ids[i], blocks[i])];
      }
      i := i + 1;
    }
    WindowEnds(ids, blocks, i, |ids|);
  }

  // --------------------------------------------------------------------- states

  // The index of the last block that is not null.
  function RunningIndex(blocks: seq<nat>, otherwise: nat): (i: nat)
    ensures (i < |blocks| && blocks[i] != 0 && forall k :: i < k < |blocks| ==> blocks[k] == 0) ||
            (i == otherwise && forall k :: 0 <= k < |blocks| ==> blocks[k] == 0)
  {
    if blocks == [] then otherwise
    else if blocks[|blocks| - 1] != 0 then |blocks| - 1
    else RunningIndex(blocks[..|blocks| - 1], otherwise)
  }

  method FindRunning(blocks: seq<nat>, otherwise: nat) returns (i: nat)
    ensures i == RunningIndex(blocks, otherwise)
  {
    var k := |blocks|;
    while k > 0
      invariant 0 <= k <= |blocks|
      invariant RunningIndex(blocks, otherwise) == RunningIndex(blocks[..k], otherwise)
    {
      if blocks[k - 1] != 0 {
        return k - 1;
      }
      assert blocks[..k][..k - 1] == blocks[..k - 1];
      k := k - 1;
    }
    i := otherwise;
  }

  // The block of a state: that of its last token, or the running block for a load.
  function StateIndex(blockSize: nat, table: seq<nat>, seqLen: nat, load: bool): nat
    requires 0 < blockSize
  {
    var own := if seqLen == 0 then 0 else BlocksIn(seqLen - 1, blockSize);
    if load then RunningIndex(table, own) else own
  }

  // The state of one group at a boundary; nothing when its block or key is missing.
  function StatePair(gs: Groups, g: nat, seqLen: nat, ids: seq<seq<Hash>>, table: seq<nat>, load: bool): seq<Pair>
    requires gs.Valid() && g < |gs.all| == |ids|
  {
    var i := StateIndex(gs.all[g].blockSize, table, seqLen, load);
    var key := StateHash(gs, g, seqLen, ids);
    if |table| <= i || table[i] == 0 || key.None? then [] else [Pair(key.value, table[i])]
  }

  method AppendState(dst: seq<Pair>, gs: Groups, g: nat, seqLen: nat, ids: seq<seq<Hash>>, table: seq<nat>, load: bool)
      returns (r: seq<Pair>)
    requires gs.Valid() && g < |gs.all| == |ids|
    ensures r == dst + StatePair(gs, g, seqLen, ids, table, load)
  {
    r := dst;
    var i := 0;
    if seqLen > 0 {
      i := (seqLen - 1) / gs.all[g].blockSize;
      BlocksInIsQuotient(seqLen - 1, gs.all[g].blockSize);
    }
    if load {
      i := FindRunning(table, i);
    }
    if |table| <= i {
      return;
    }
    if table[i] == 0 {
      return;
    }
    var key := StateHash(gs, g, seqLen, ids);
    if key.Some? {
      r := r + [Pair(key.value, table[i])];
    }
  }

  // ---------------------------------------------------------------------- plans

  ghost predicate Shaped(gs: Groups, m: HLARequestMeta) {
    gs.Valid() && |m.groupIds| == |gs.all| == |m.tables| && m.hbmHitBlockNum <= m.totalHitBlockNum
  }

  function GroupLoad(gs: Groups, m: HLARequestMeta, g: nat): seq<Pair>
    requires Shaped(gs, m) && g < |gs.all|
  {
    var from, to := m.hbmHitBlockNum * gs.lcmBlockSize, m.totalHitBlockNum * gs.lcmBlockSize;
    if gs.all[g].isMambaAlign then StatePair(gs, g, to, m.groupIds, m.tables[g], true)
    else Window(m.groupIds[g], m.tables[g], BlocksIn(from, gs.all[g].blockSize), BlocksIn(to, gs.all[g].blockSize))
  }

  // One list after the other.
  function Concat(lists: seq<seq<Pair>>): seq<Pair> {
    if lists == [] then [] else Concat(lists[..|lists| - 1]) + lists[|lists| - 1]
  }

  lemma {:induction false} ConcatMeaning(lists: seq<seq<Pair>>, p: Pair)
    ensures p in Concat(lists) <==> exists i :: 0 <= i < |lists| && p in lists[i]
  {
    if lists != [] {
      var early := lists[..|lists| - 1];
      ConcatMeaning(early, p);
      assert forall i :: 0 <= i < |early| ==> early[i] == lists[i];
    }
  }

  lemma {:induction false} ConcatAdds(a: seq<seq<Pair>>, b: seq<seq<Pair>>, both: seq<seq<Pair>>)
    requires |a| == |b| == |both| && forall i :: 0 <= i < |both| ==> both[i] == a[i] + b[i]
    ensures multiset(Concat(both)) == multiset(Concat(a)) + multiset(Concat(b))
  {
    var n := |both| - 1;
    if n >= 0 {
      ConcatAdds(a[..n], b[..n], both[..n]);
      assert both[n] == a[n] + b[n];
    }
  }

  lemma ConcatNext(lists: seq<seq<Pair>>, i: nat)
    requires i < |lists|
    ensures Concat(lists[..i + 1]) == Concat(lists[..i]) + lists[i]
  {
    assert lists[..i + 1][..i] == lists[..i];
  }

  function GroupLoads(gs: Groups, m: HLARequestMeta): (r: seq<seq<Pair>>)
    requires Shaped(gs, m)
    ensures |r| == |gs.all|
  {
    seq(|gs.all|, g requires 0 <= g < |gs.all| => GroupLoad(gs, m, g))
  }

  function LoadPlan(gs: Groups, m: HLARequestMeta): seq<Pair>
    requires Shaped(gs, m)
  {
    Concat(GroupLoads(gs, m))
  }

  // A state is dumped only by a step that ends on a boundary of its own.
  function GroupDump(gs: Groups, m: HLARequestMeta, g: nat, from: nat, to: nat): seq<Pair>
    requires Shaped(gs, m) && g < |gs.all|
  {
    if !gs.all[g].isMambaAlign then
      Window(m.groupIds[g], m.tables[g], BlocksIn(from, gs.all[g].blockSize), BlocksIn(to, gs.all[g].blockSize))
    else
      var first, last := LastBoundary(from, gs.lcmBlockSize) + gs.lcmBlockSize, LastBoundary(to, gs.lcmBlockSize);
      if to != last || last < first then [] else StatePair(gs, g, last, m.groupIds, m.tables[g], false)
  }

  function GroupDumps(gs: Groups, m: HLARequestMeta, from: nat, to: nat): (r: seq<seq<Pair>>)
    requires Shaped(gs, m)
    ensures |r| == |gs.all|
  {
    seq(|gs.all|, g requires 0 <= g < |gs.all| => GroupDump(gs, m, g, from, to))
  }

  function DumpPlan(gs: Groups, m: HLARequestMeta, from: nat, to: nat): seq<Pair>
    requires Shaped(gs, m)
  {
    Concat(GroupDumps(gs, m, from, to))
  }

  datatype Move = Move(newTokens: nat, incoming: seq<seq<nat>>, full: bool, needLoad: bool)

  function WithTables(m: HLARequestMeta, move: Move): HLARequestMeta
    requires |move.incoming| == |m.tables|
  {
    m.(tables := seq(|m.tables|, g requires 0 <= g < |m.tables| => UpdateTable(m.tables[g], move.incoming[g], move.full)))
  }

  // How far a request can have been dumped.
  function DumpedTo(m: HLARequestMeta): nat {
    if m.tokenProcessed < m.numTokenIds then m.tokenProcessed else m.numTokenIds
  }

  function Advanced(m: HLARequestMeta, newTokens: nat): HLARequestMeta {
    if m.tokenProcessed < m.numTokenIds then m.(tokenProcessed := m.tokenProcessed + newTokens) else m
  }

  function StepLoad(gs: Groups, m: HLARequestMeta, move: Move): seq<Pair>
    requires Shaped(gs, m) && |move.incoming| == |gs.all|
  {
    if move.needLoad && m.hbmHitBlockNum < m.totalHitBlockNum then LoadPlan(gs, WithTables(m, move)) else []
  }

  function StepDump(gs: Groups, m: HLARequestMeta, move: Move): seq<Pair>
    requires Shaped(gs, m) && |move.incoming| == |gs.all|
  {
    if m.tokenProcessed < m.numTokenIds
    then DumpPlan(gs, WithTables(m, move), m.tokenProcessed, DumpedTo(Advanced(m, move.newTokens)))
    else []
  }

  class HybridConnector {
    const config: Config
    var requestsMeta: map<nat, HLARequestMeta>

    ghost predicate Valid() reads this {
      config.gs.Valid() && forall r :: r in requestsMeta ==> Shaped(config.gs, requestsMeta[r])
    }

    constructor (config: Config)
      requires config.gs.Valid()
      ensures Valid() && this.config == config && requestsMeta == map[]
    {
      this.config := config;
      requestsMeta := map[];
    }

    method GetNumNewMatchedTokens(requestId: nat, tokens: seq<Token>, computed: nat, present: set<Hash>,
                                  prefixFails: set<nat>, stateFailsAt: set<nat>)
        returns (external: nat)
      requires Valid() && computed % config.gs.lcmBlockSize == 0
      modifies this
      ensures Valid()
      ensures config.persistTokenThreshold > |tokens| ==> external == 0 && requestsMeta == old(requestsMeta)
      ensures config.persistTokenThreshold <= |tokens| ==>
                && requestId in requestsMeta
                && requestsMeta == old(requestsMeta)[requestId := requestsMeta[requestId]]
                && Matched(config, tokens, computed, present, prefixFails == {} && stateFailsAt == {},
                           requestsMeta[requestId], external)
    {
      var meta;
      meta, external := MatchRequest(config, tokens, computed, present, prefixFails, stateFailsAt);
      if meta.Some? {
        requestsMeta := requestsMeta[requestId := meta.value];
      }
    }

    // The allocation hook: the engine's block tables replace those kept.
    method UpdateStateAfterAlloc(requestId: nat, blocks: seq<seq<nat>>)
      requires Valid() && |blocks| == |config.gs.all|
      modifies this
      ensures Valid()
      ensures requestsMeta == if requestId in old(requestsMeta)
                              then old(requestsMeta)[requestId := old(requestsMeta)[requestId].(tables := blocks)]
                              else old(requestsMeta)
    {
      if requestId in requestsMeta {
        requestsMeta := requestsMeta[requestId := requestsMeta[requestId].(tables := blocks)];
      }
    }

    static method LoadGroup(dst: seq<Pair>, gs: Groups, m: HLARequestMeta, g: nat) returns (r: seq<Pair>)
      requires Shaped(gs, m) && g < |gs.all|
      ensures r == dst + GroupLoad(gs, m, g)
    {
      var from, to := m.hbmHitBlockNum * gs.lcmBlockSize, m.totalHitBlockNum * gs.lcmBlockSize;
      if gs.all[g].isMambaAlign {
        r := AppendState(dst, gs, g, to, m.groupIds, m.tables[g], true);
      } else {
        r := ExtendWindow(dst, m.groupIds[g], m.tables[g], from, to, gs.all[g].blockSize);
      }
    }

    static method DumpGroup(dst: seq<Pair>, gs: Groups, m: HLARequestMeta, g: nat, from: nat, to: nat) returns (r: seq<Pair>)
      requires Shaped(gs, m) && g < |gs.all|
      ensures r == dst + GroupDump(gs, m, g, from, to)
    {
      if !gs.all[g].isMambaAlign {
        r := ExtendWindow(dst, m.groupIds[g], m.tables[g], from, to, gs.all[g].blockSize);
        return;
      }
      var firstBoundary, lastBoundary := Boundaries(from, to, gs.lcmBlockSize);
      if to != lastBoundary || lastBoundary < firstBoundary {
        return dst;
      }
      r := AppendState(dst, gs, g, lastBoundary, m.groupIds, m.tables[g], false);
    }

    // The first boundary after `from` and the last one up to `to`.
    static method Boundaries(from: nat, to: nat, lcm: nat) returns (firstBoundary: nat, lastBoundary: nat)
      requires 0 < lcm
      ensures firstBoundary == LastBoundary(from, lcm) + lcm && lastBoundary == LastBoundary(to, lcm)
    {
      var p, q := from / lcm, to / lcm;
      LastBoundaryIsMultiple(from, lcm);
      LastBoundaryIsMultiple(to, lcm);
      assert (p + 1) * lcm == p * lcm + lcm;
      firstBoundary, lastBoundary := (p + 1) * lcm, q * lcm;
    }

    method PlanLoad(m: HLARequestMeta) returns (load: seq<Pair>)
      requires Shaped(config.gs, m)
      ensures load == LoadPlan(config.gs, m)
    {
      load := [];
      ghost var lists := GroupLoads(config.gs, m);
      for g := 0 to |config.gs.all|
        invariant load == Concat(lists[..g])
      {
        ConcatNext(lists, g);
        load := LoadGroup(load, config.gs, m, g);
      }
      assert lists[..|lists|] == lists;
    }

    method PlanDump(m: HLARequestMeta, from: nat, to: nat) returns (dump: seq<Pair>)
      requires Shaped(config.gs, m)
      ensures dump == DumpPlan(config.gs, m, from, to)
    {
      dump := [];
      ghost var lists := GroupDumps(config.gs, m, from, to);
      for g := 0 to |config.gs.all|
        invariant dump == Concat(lists[..g])
      {
        ConcatNext(lists, g);
        dump := DumpGroup(dump, config.gs, m, g, from, to);
      }
      assert lists[..|lists|] == lists;
    }

    // Appends the blocks of a token range of one group.
    static method ExtendWindow(dst: seq<Pair>, ids: seq<Hash>, table: seq<nat>, from: nat, to: nat, blockSize: nat)
        returns (r: seq<Pair>)
      requires 0 < blockSize
      ensures r == dst + Window(ids, table, BlocksIn(from, blockSize), BlocksIn(to, blockSize))
    {
      var start, end := from / blockSize, to / blockSize;
      BlocksInIsQuotient(from, blockSize);
      BlocksInIsQuotient(to, blockSize);
      if start >= end {
        return dst;
      }
      r := ExtendNonNull(dst, Slice(ids, start, end), Slice(table, start, end));
      WindowOfSlice(ids, table, start, end);
    }

    method GenerateDispatchMeta(requestId: nat, move: Move) returns (plan: Option<(seq<Pair>, seq<Pair>)>)
      requires Valid() && |move.incoming| == |config.gs.all|
      modifies this
      ensures Valid()
      ensures requestId !in old(requestsMeta) ==> plan == None && requestsMeta == old(requestsMeta)
      ensures requestId in old(requestsMeta) ==>
                var m := old(requestsMeta)[requestId];
                && plan == Some((StepLoad(config.gs, m, move), StepDump(config.gs, m, move)))
                && requestsMeta == old(requestsMeta)[requestId := Advanced(WithTables(m, move), move.newTokens)]
                && (forall g :: 0 <= g < |config.gs.all| ==>
                      requestsMeta[requestId].tables[g] == UpdateTable(m.tables[g], move.incoming[g], move.full))
                && requestsMeta[requestId].tokenProcessed ==
                   m.tokenProcessed + (if m.tokenProcessed < m.numTokenIds then move.newTokens else 0)
    {
      if requestId !in requestsMeta {
        return None;
      }
      var load, dump, next := PlanStep(requestsMeta[requestId], move);
      requestsMeta := requestsMeta[requestId := next];
      plan := Some((load, dump));
    }

    // The transfers of one step of a request, and its record after the step.
    method PlanStep(m: HLARequestMeta, move: Move) returns (load: seq<Pair>, dump: seq<Pair>, next: HLARequestMeta)
      requires Shaped(config.gs, m) && |move.incoming| == |config.gs.all|
      ensures load == StepLoad(config.gs, m, move) && dump == StepDump(config.gs, m, move)
      ensures next == Advanced(WithTables(m, move), move.newTokens) && Shaped(config.gs, next)
    {
      next := WithTables(m, move);
      load, dump := [], [];
      if move.needLoad && m.hbmHitBlockNum < m.totalHitBlockNum {
        load := PlanLoad(next);
      }
      if m.tokenProcessed < m.numTokenIds {
        var end := if m.tokenProcessed + move.newTokens <= m.numTokenIds then m.tokenProcessed + move.newTokens else m.numTokenIds;
        dump := PlanDump(next, m.tokenProcessed, end);
        next := next.(tokenProcessed := m.tokenProcessed + move.newTokens);
      }
    }

    method Finish(requestId: nat)
      requires Valid()
      modifies this
      ensures Valid() && requestsMeta == old(requestsMeta) - {requestId}
    {
      requestsMeta := requestsMeta - {requestId};
    }
  }

  // ------------------------------------------------------------- what is loaded

  lemma LoadPlanMeaning(gs: Groups, m: HLARequestMeta, p: Pair)
    requires Shaped(gs, m)
    ensures p in LoadPlan(gs, m) <==> exists g :: 0 <= g < |gs.all| && p in GroupLoad(gs, m, g)
  {
    ConcatMeaning(GroupLoads(gs, m), p);
    assert forall g :: 0 <= g < |gs.all| ==> GroupLoads(gs, m)[g] == GroupLoad(gs, m, g);
  }

  // A step that is asked to loads the hit of the request into the updated tables.
  lemma StepLoadMeaning(gs: Groups, m: HLARequestMeta, move: Move, p: Pair)
    requires Shaped(gs, m) && |move.incoming| == |gs.all|
    ensures p in StepLoad(gs, m, move) <==>
            && move.needLoad && m.hbmHitBlockNum < m.totalHitBlockNum
            && exists g :: 0 <= g < |gs.all| && p in GroupLoad(gs, WithTables(m, move), g)
  {
    LoadPlanMeaning(gs, WithTables(m, move), p);
  }

  // A step dumps from the tables as updated, up to the end of the prompt.
  lemma StepDumpMeaning(gs: Groups, m: HLARequestMeta, move: Move, p: Pair, end: nat)
    requires Shaped(gs, m) && |move.incoming| == |gs.all|
    requires end == if m.tokenProcessed + move.newTokens <= m.numTokenIds then m.tokenProcessed + move.newTokens else m.numTokenIds
    ensures p in StepDump(gs, m, move) <==>
            && m.tokenProcessed < m.numTokenIds
            && exists g :: 0 <= g < |gs.all| && p in GroupDump(gs, WithTables(m, move), g, m.tokenProcessed, end)
  {
    if m.tokenProcessed < m.numTokenIds {
      assert DumpedTo(Advanced(m, move.newTokens)) == end;
      DumpPlanMeaning(gs, WithTables(m, move), m.tokenProcessed, end, p);
    }
  }

  // Every key a step loads was held by the store when the request was matched, and it
  // is loaded into a real block.
  lemma LoadsArePresent(gs: Groups, m: HLARequestMeta, present: set<Hash>, p: Pair)
    requires Backed(gs, m, present) && m.hbmHitBlockNum < m.totalHitBlockNum
    requires p in LoadPlan(gs, m)
    ensures p.key in present && p.block != 0
  {
    LoadPlanMeaning(gs, m, p);
    var g :| 0 <= g < |gs.all| && p in GroupLoad(gs, m, g);
    GroupLoadIsPresent(gs, m, present, g, p);
  }

  lemma HitEnd(m: HLARequestMeta, lcm: nat)
    requires 0 < lcm && m.hbmHitBlockNum < m.totalHitBlockNum
    ensures var from, e := m.hbmHitBlockNum * lcm, (m.totalHitBlockNum - m.hbmHitBlockNum) * lcm;
            from + e == m.totalHitBlockNum * lcm && 0 < e && from % lcm == 0 && e % lcm == 0
  {
    DivMultiple(m.hbmHitBlockNum, lcm);
    DivMultiple(m.totalHitBlockNum - m.hbmHitBlockNum, lcm);
    MulMonotone(1, m.totalHitBlockNum - m.hbmHitBlockNum, lcm);
  }

  lemma GroupLoadIsPresent(gs: Groups, m: HLARequestMeta, present: set<Hash>, g: nat, p: Pair)
    requires Backed(gs, m, present) && m.hbmHitBlockNum < m.totalHitBlockNum && g < |gs.all|
    requires p in GroupLoad(gs, m, g)
    ensures p.key in present && p.block != 0
  {
    var from, to := m.hbmHitBlockNum * gs.lcmBlockSize, m.totalHitBlockNum * gs.lcmBlockSize;
    HitIsPresent(gs, m, present, g, from, to);
    if !gs.all[g].isMambaAlign {
      WindowMeaning(m.groupIds[g], m.tables[g], BlocksIn(from, gs.all[g].blockSize), BlocksIn(to, gs.all[g].blockSize), p);
    }
  }

  // What the hit of a request says of one group.
  lemma HitIsPresent(gs: Groups, m: HLARequestMeta, present: set<Hash>, g: nat, from: nat, to: nat)
    requires Backed(gs, m, present) && m.hbmHitBlockNum < m.totalHitBlockNum && g < |gs.all|
    requires from == m.hbmHitBlockNum * gs.lcmBlockSize && to == m.totalHitBlockNum * gs.lcmBlockSize
    ensures gs.all[g].isMambaAlign ==>
              StateHash(gs, g, to, m.groupIds).Some? && StateHash(gs, g, to, m.groupIds).value in present
    ensures !gs.all[g].isMambaAlign ==>
              && BlocksIn(to, gs.all[g].blockSize) <= |m.groupIds[g]|
              && forall i :: BlocksIn(from, gs.all[g].blockSize) <= i < BlocksIn(to, gs.all[g].blockSize) ==>
                   m.groupIds[g][i] in present
  {
    HitEnd(m, gs.lcmBlockSize);
    var e := (m.totalHitBlockNum - m.hbmHitBlockNum) * gs.lcmBlockSize;
    assert PrefixPresent(gs, m.groupIds, present, from, e);
    assert StatesPresent(gs, m.groupIds, present, from + e);
    BlocksInIsQuotient(from, gs.all[g].blockSize);
    BlocksInIsQuotient(to, gs.all[g].blockSize);
  }

  // A step loads every block of the hit into the block of the same index, given that
  // the engine has allocated a real one.
  lemma BlocksAreLoaded(gs: Groups, m: HLARequestMeta, present: set<Hash>, g: nat, i: nat)
    requires Backed(gs, m, present) && m.hbmHitBlockNum < m.totalHitBlockNum && g < |gs.all| && !gs.all[g].isMambaAlign
    requires BlocksIn(m.hbmHitBlockNum * gs.lcmBlockSize, gs.all[g].blockSize) <= i
    requires i < BlocksIn(m.totalHitBlockNum * gs.lcmBlockSize, gs.all[g].blockSize)
    requires i < |m.tables[g]| && m.tables[g][i] != 0
    ensures i < |m.groupIds[g]| && Pair(m.groupIds[g][i], m.tables[g][i]) in LoadPlan(gs, m)
  {
    var from, to := m.hbmHitBlockNum * gs.lcmBlockSize, m.totalHitBlockNum * gs.lcmBlockSize;
    HitIsPresent(gs, m, present, g, from, to);
    var p := Pair(m.groupIds[g][i], m.tables[g][i]);
    InWindow(m.groupIds[g], m.tables[g], BlocksIn(from, gs.all[g].blockSize), BlocksIn(to, gs.all[g].blockSize), i);
    assert p in GroupLoad(gs, m, g);
    LoadPlanMeaning(gs, m, p);
  }

  // A step loads the state at the end of the hit into the last real block of its group.
  lemma StatesAreLoaded(gs: Groups, m: HLARequestMeta, present: set<Hash>, g: nat, i: nat)
    requires Backed(gs, m, present) && m.hbmHitBlockNum < m.totalHitBlockNum && g < |gs.all| && gs.all[g].isMambaAlign
    requires i < |m.tables[g]| && m.tables[g][i] != 0
    requires forall k :: i < k < |m.tables[g]| ==> m.tables[g][k] == 0
    ensures var key := StateHash(gs, g, m.totalHitBlockNum * gs.lcmBlockSize, m.groupIds);
            key.Some? && Pair(key.value, m.tables[g][i]) in LoadPlan(gs, m)
  {
    var from, to := m.hbmHitBlockNum * gs.lcmBlockSize, m.totalHitBlockNum * gs.lcmBlockSize;
    HitIsPresent(gs, m, present, g, from, to);
    var p := Pair(StateHash(gs, g, to, m.groupIds).value, m.tables[g][i]);
    assert StateIndex(gs.all[g].blockSize, m.tables[g], to, true) == i;
    assert GroupLoad(gs, m, g) == [p];
    LoadPlanMeaning(gs, m, p);
  }

  // ------------------------------------------------------- what a schedule dumps

  ghost predicate Moves(gs: Groups, moves: seq<Move>) {
    forall k :: 0 <= k < |moves| ==> |moves[k].incoming| == |gs.all|
  }

  function After(gs: Groups, m: HLARequestMeta, moves: seq<Move>): (r: HLARequestMeta)
    requires Shaped(gs, m) && Moves(gs, moves)
    ensures Shaped(gs, r) && r.groupIds == m.groupIds && r.numTokenIds == m.numTokenIds
    ensures r.hbmHitBlockNum == m.hbmHitBlockNum && r.totalHitBlockNum == m.totalHitBlockNum
    ensures m.tokenProcessed <= r.tokenProcessed
  {
    if moves == [] then m
    else
      var before, last := After(gs, m, moves[..|moves| - 1]), moves[|moves| - 1];
      Advanced(WithTables(before, last), last.newTokens)
  }

  // What one step dumps of one group.
  function GroupStep(gs: Groups, m: HLARequestMeta, move: Move, g: nat): seq<Pair>
    requires Shaped(gs, m) && |move.incoming| == |gs.all| && g < |gs.all|
  {
    if m.tokenProcessed < m.numTokenIds
    then GroupDump(gs, WithTables(m, move), g, m.tokenProcessed, DumpedTo(Advanced(m, move.newTokens)))
    else []
  }

  // What a schedule dumps of one group.
  function GroupRun(gs: Groups, m: HLARequestMeta, moves: seq<Move>, g: nat): seq<Pair>
    requires Shaped(gs, m) && Moves(gs, moves) && g < |gs.all|
  {
    if moves == [] then []
    else
      var early, last := moves[..|moves| - 1], moves[|moves| - 1];
      GroupRun(gs, m, early, g) + GroupStep(gs, After(gs, m, early), last, g)
  }

  lemma DumpPlanMeaning(gs: Groups, m: HLARequestMeta, from: nat, to: nat, p: Pair)
    requires Shaped(gs, m)
    ensures p in DumpPlan(gs, m, from, to) <==> exists g :: 0 <= g < |gs.all| && p in GroupDump(gs, m, g, from, to)
  {
    ConcatMeaning(GroupDumps(gs, m, from, to), p);
    assert forall g :: 0 <= g < |gs.all| ==> GroupDumps(gs, m, from, to)[g] == GroupDump(gs, m, g, from, to);
  }

  // The engine only appends to a group's table, and has blocks for all processed tokens.
  ghost predicate TableGrows(gs: Groups, m: HLARequestMeta, moves: seq<Move>, g: nat)
    requires Shaped(gs, m) && Moves(gs, moves) && g < |gs.all|
  {
    moves == [] ||
    var early := moves[..|moves| - 1];
    && TableGrows(gs, m, early, g)
    && After(gs, m, early).tables[g] <= After(gs, m, moves).tables[g]
    && BlocksIn(DumpedTo(After(gs, m, moves)), gs.all[g].blockSize) <= |After(gs, m, moves).tables[g]|
  }

  lemma BlockStep(gs: Groups, m: HLARequestMeta, move: Move, g: nat)
    requires Shaped(gs, m) && |move.incoming| == |gs.all| && g < |gs.all| && !gs.all[g].isMambaAlign
    ensures var next := Advanced(WithTables(m, move), move.newTokens); var bs := gs.all[g].blockSize;
            && GroupStep(gs, m, move, g) ==
               Window(m.groupIds[g], next.tables[g], BlocksIn(DumpedTo(m), bs), BlocksIn(DumpedTo(next), bs))
            && BlocksIn(DumpedTo(m), bs) <= BlocksIn(DumpedTo(next), bs)
  {
    var next := Advanced(WithTables(m, move), move.newTokens);
    BlocksInMonotone(DumpedTo(m), DumpedTo(next), gs.all[g].blockSize);
  }

  lemma RunsJoin(ids: seq<Hash>, small: seq<nat>, large: seq<nat>, from: nat, mid: nat, to: nat)
    requires from <= mid <= to && (from == mid || (small <= large && mid <= |small|))
    ensures Window(ids, small, from, mid) + Window(ids, large, mid, to) == Window(ids, large, from, to)
  {
    WindowSplits(ids, large, from, mid, to);
    if from < mid {
      WindowKept(ids, small, large, from, mid);
    }
  }

  // However a request is cut into steps, the steps dump one run of the group's keys,
  // each with the block of the same index.
  lemma {:induction false} BlocksAreOneRun(gs: Groups, m: HLARequestMeta, moves: seq<Move>, g: nat)
    requires Shaped(gs, m) && Moves(gs, moves) && g < |gs.all| && !gs.all[g].isMambaAlign
    requires TableGrows(gs, m, moves, g)
    ensures var end := After(gs, m, moves); var bs := gs.all[g].blockSize;
            && BlocksIn(DumpedTo(m), bs) <= BlocksIn(DumpedTo(end), bs)
            && GroupRun(gs, m, moves, g) ==
               Window(m.groupIds[g], end.tables[g], BlocksIn(DumpedTo(m), bs), BlocksIn(DumpedTo(end), bs))
  {
    if moves != [] {
      var early, last := moves[..|moves| - 1], moves[|moves| - 1];
      var mid, end, bs := After(gs, m, early), After(gs, m, moves), gs.all[g].blockSize;
      BlocksAreOneRun(gs, m, early, g);
      BlockStep(gs, mid, last, g);
      RunsJoin(m.groupIds[g], mid.tables[g], end.tables[g],
               BlocksIn(DumpedTo(m), bs), BlocksIn(DumpedTo(mid), bs), BlocksIn(DumpedTo(end), bs));
    }
  }

  // A step dumps a state exactly when it ends on a boundary past its start whose block
  // and key exist; it is then the state at the very end of the step.
  lemma StateDumpedAtEnd(gs: Groups, m: HLARequestMeta, move: Move, g: nat)
    requires Shaped(gs, m) && |move.incoming| == |gs.all| && g < |gs.all| && gs.all[g].isMambaAlign
    ensures var end := DumpedTo(Advanced(m, move.newTokens));
            var table := WithTables(m, move).tables[g];
            var key := StateHash(gs, g, end, m.groupIds);
            var i := if end == 0 then 0 else BlocksIn(end - 1, gs.all[g].blockSize);
            GroupStep(gs, m, move, g) ==
            if DumpedTo(m) < end && end % gs.lcmBlockSize == 0 && key.Some? && i < |table| && table[i] != 0
            then [Pair(key.value, table[i])] else []
  {
    var end := DumpedTo(Advanced(m, move.newTokens));
    if m.tokenProcessed < m.numTokenIds {
      BoundaryPassed(m.tokenProcessed, end, gs.lcmBlockSize);
    }
  }

  lemma BoundaryPassed(from: nat, to: nat, lcm: nat)
    requires 0 < lcm && from <= to
    ensures to == LastBoundary(to, lcm) && LastBoundary(from, lcm) + lcm <= LastBoundary(to, lcm) <==>
            from < to && to % lcm == 0
  {
    LastBoundaryIsMultiple(from, lcm);
    LastBoundaryIsMultiple(to, lcm);
    DivBounds(from, lcm);
    if from < to && to % lcm == 0 {
      var p, q := from / lcm, to / lcm;
      if q <= p { MulMonotone(q, p, lcm); }
      else { MulMonotone(p + 1, q, lcm); }
    }
  }

  // A pair that carries the state at one boundary.
  ghost predicate StateAt(gs: Groups, ids: seq<seq<Hash>>, g: nat, p: Pair, at: nat)
    requires gs.Valid() && g < |gs.all| == |ids|
  {
    p.key.GroupState? && p.key.seqLen == at && StateHash(gs, g, at, ids) == Some(p.key) && p.block != 0
  }

  lemma StateStep(gs: Groups, m: HLARequestMeta, move: Move, g: nat)
    requires Shaped(gs, m) && |move.incoming| == |gs.all| && g < |gs.all| && gs.all[g].isMambaAlign
    ensures var step, end := GroupStep(gs, m, move, g), DumpedTo(Advanced(WithTables(m, move), move.newTokens));
            && DumpedTo(m) <= end
            && (step == [] || (|step| == 1 && StateAt(gs, m.groupIds, g, step[0], end) && DumpedTo(m) < end))
  {
    StateDumpedAtEnd(gs, m, move, g);
  }

  ghost predicate IncreasingStates(gs: Groups, ids: seq<seq<Hash>>, g: nat, run: seq<Pair>, from: nat, to: nat)
    requires gs.Valid() && g < |gs.all| == |ids|
  {
    && from <= to
    && (forall i :: 0 <= i < |run| ==> run[i].key.GroupState? && from < run[i].key.seqLen <= to)
    && (forall i :: 0 <= i < |run| ==> StateAt(gs, ids, g, run[i], run[i].key.seqLen))
    && (forall i, j :: 0 <= i < j < |run| ==> run[i].key.seqLen < run[j].key.seqLen)
  }

  // The states a schedule dumps lie at growing boundaries, so none is dumped twice.
  lemma {:induction false} StatesAreIncreasing(gs: Groups, m: HLARequestMeta, moves: seq<Move>, g: nat)
    requires Shaped(gs, m) && Moves(gs, moves) && g < |gs.all| && gs.all[g].isMambaAlign
    ensures IncreasingStates(gs, m.groupIds, g, GroupRun(gs, m, moves, g), DumpedTo(m), DumpedTo(After(gs, m, moves)))
  {
    if moves != [] {
      var early, last := moves[..|moves| - 1], moves[|moves| - 1];
      StatesAreIncreasing(gs, m, early, g);
      var mid := After(gs, m, early);
      StateStep(gs, mid, last, g);
      StatesGrow(gs, m.groupIds, g, GroupRun(gs, m, early, g), GroupStep(gs, mid, last, g),
                 DumpedTo(m), DumpedTo(mid), DumpedTo(After(gs, m, moves)));
    }
  }

  lemma StatesGrow(gs: Groups, ids: seq<seq<Hash>>, g: nat, run: seq<Pair>, step: seq<Pair>, from: nat, mid: nat, to: nat)
    requires gs.Valid() && g < |gs.all| == |ids| && IncreasingStates(gs, ids, g, run, from, mid) && mid <= to
    requires step == [] || (|step| == 1 && StateAt(gs, ids, g, step[0], to) && mid < to)
    ensures IncreasingStates(gs, ids, g, run + step, from, to)
  {
  }

  ghost predicate KeysDiffer(run: seq<Pair>) {
    forall k, l :: 0 <= k < l < |run| ==> run[k].key != run[l].key
  }

  lemma {:induction false} WindowKeysDiffer(ids: seq<Hash>, table: seq<nat>, from: nat, to: nat)
    requires forall i, j :: 0 <= i < j < |ids| ==> ids[i] != ids[j]
    ensures KeysDiffer(Window(ids, table, from, to))
    decreases (to)
  {
    if from < to {
      WindowKeysDiffer(ids, table, from, to - 1);
      var before := Window(ids, table, from, to - 1);
      var w := Window(ids, table, from, to);
      assert |before| <= |w| <= |before| + 1 && w[..|before|] == before;
      assert |before| < |w| ==> 0 < to <= |ids| && w[|before|].key == ids[to - 1];
      forall k, l | 0 <= k < l < |w| ensures w[k].key != w[l].key {
        assert w[k] == before[k];
        if l < |before| {
          assert w[l] == before[l];
          assert before[k].key != before[l].key;
        } else {
          assert before[k] in before;
          WindowMeaning(ids, table, from, to - 1, before[k]);
          var i :| from <= i < to - 1 && Paired(ids, table, i, before[k]);
          assert ids[i] != ids[to - 1];
        }
      }
    }
  }

  // Within a group no key is dumped twice.
  lemma GroupDumpsOnce(gs: Groups, tokens: seq<Token>, m: HLARequestMeta, moves: seq<Move>, g: nat)
    requires Shaped(gs, m) && Moves(gs, moves) && g < |gs.all| && IdsOf(gs, tokens, m.groupIds)
    requires !gs.all[g].isMambaAlign ==> TableGrows(gs, m, moves, g)
    ensures KeysDiffer(GroupRun(gs, m, moves, g))
  {
    if gs.all[g].isMambaAlign {
      StatesAreIncreasing(gs, m, moves, g);
    } else {
      var ids, end, bs := m.groupIds[g], After(gs, m, moves), gs.all[g].blockSize;
      forall i, j | 0 <= i < j < |ids| ensures ids[i] != ids[j] {
        GroupKeysMeaning(gs, tokens, tokens, g, g, i, j);
      }
      BlocksAreOneRun(gs, m, moves, g);
      WindowKeysDiffer(ids, end.tables[g], BlocksIn(DumpedTo(m), bs), BlocksIn(DumpedTo(end), bs));
    }
  }

  // Where the keys of a group come from: a block of its own list, or a state by its seed.
  ghost predicate KeyOfGroup(gs: Groups, m: HLARequestMeta, g: nat, key: Hash)
    requires Shaped(gs, m) && g < |gs.all|
  {
    if gs.all[g].isMambaAlign then key.GroupState? && key.seed == gs.all[g].seed else key in m.groupIds[g]
  }

  lemma GroupDumpsOwnKeys(gs: Groups, tokens: seq<Token>, m: HLARequestMeta, moves: seq<Move>, g: nat, k: nat)
    requires Shaped(gs, m) && Moves(gs, moves) && g < |gs.all| && IdsOf(gs, tokens, m.groupIds)
    requires !gs.all[g].isMambaAlign ==> TableGrows(gs, m, moves, g)
    requires k < |GroupRun(gs, m, moves, g)|
    ensures KeyOfGroup(gs, m, g, GroupRun(gs, m, moves, g)[k].key)
  {
    var run := GroupRun(gs, m, moves, g);
    if gs.all[g].isMambaAlign {
      StatesAreIncreasing(gs, m, moves, g);
      assert StateAt(gs, m.groupIds, g, run[k], run[k].key.seqLen);
    } else {
      var end, bs := After(gs, m, moves), gs.all[g].blockSize;
      BlocksAreOneRun(gs, m, moves, g);
      assert run[k] in run;
      WindowMeaning(m.groupIds[g], end.tables[g], BlocksIn(DumpedTo(m), bs), BlocksIn(DumpedTo(end), bs), run[k]);
    }
  }

  lemma GroupsShareNoKey(gs: Groups, tokens: seq<Token>, m: HLARequestMeta, g: nat, h: nat, key: Hash)
    requires Shaped(gs, m) && g < h < |gs.all| && IdsOf(gs, tokens, m.groupIds)
    ensures !(KeyOfGroup(gs, m, g, key) && KeyOfGroup(gs, m, h, key))
  {
    if !gs.all[g].isMambaAlign && key in m.groupIds[g] {
      var i :| 0 <= i < |m.groupIds[g]| && m.groupIds[g][i] == key;
      InBlocks(gs.all[g].blockSize, |tokens|, i);
      if !gs.all[h].isMambaAlign && key in m.groupIds[h] {
        var j :| 0 <= j < |m.groupIds[h]| && m.groupIds[h][j] == key;
        GroupKeysMeaning(gs, tokens, tokens, g, h, i, j);
      }
    } else if !gs.all[h].isMambaAlign && key in m.groupIds[h] {
      var j :| 0 <= j < |m.groupIds[h]| && m.groupIds[h][j] == key;
      InBlocks(gs.all[h].blockSize, |tokens|, j);
    }
  }

  // What a schedule dumps, step by step, and group by group.
  function ScheduleRun(gs: Groups, m: HLARequestMeta, moves: seq<Move>): seq<Pair>
    requires Shaped(gs, m) && Moves(gs, moves)
  {
    if moves == [] then []
    else
      var early, last := moves[..|moves| - 1], moves[|moves| - 1];
      ScheduleRun(gs, m, early) + StepDump(gs, After(gs, m, early), last)
  }

  function GroupRuns(gs: Groups, m: HLARequestMeta, moves: seq<Move>): (r: seq<seq<Pair>>)
    requires Shaped(gs, m) && Moves(gs, moves)
    ensures |r| == |gs.all|
  {
    seq(|gs.all|, g requires 0 <= g < |gs.all| => GroupRun(gs, m, moves, g))
  }

  function GroupSteps(gs: Groups, m: HLARequestMeta, move: Move): (r: seq<seq<Pair>>)
    requires Shaped(gs, m) && |move.incoming| == |gs.all|
    ensures |r| == |gs.all|
  {
    seq(|gs.all|, g requires 0 <= g < |gs.all| => GroupStep(gs, m, move, g))
  }

  lemma {:induction false} AllEmpty(lists: seq<seq<Pair>>)
    requires forall i :: 0 <= i < |lists| ==> lists[i] == []
    ensures Concat(lists) == []
  {
    if lists != [] {
      AllEmpty(lists[..|lists| - 1]);
    }
  }

  lemma StepIsItsGroups(gs: Groups, m: HLARequestMeta, move: Move)
    requires Shaped(gs, m) && |move.incoming| == |gs.all|
    ensures StepDump(gs, m, move) == Concat(GroupSteps(gs, m, move))
  {
    if m.tokenProcessed < m.numTokenIds {
      var to := DumpedTo(Advanced(m, move.newTokens));
      assert GroupSteps(gs, m, move) == GroupDumps(gs, WithTables(m, move), m.tokenProcessed, to);
    } else {
      AllEmpty(GroupSteps(gs, m, move));
    }
  }

  lemma RunsTakeSteps(gs: Groups, m: HLARequestMeta, moves: seq<Move>)
    requires Shaped(gs, m) && Moves(gs, moves) && moves != []
    ensures var early, last := moves[..|moves| - 1], moves[|moves| - 1];
            multiset(Concat(GroupRuns(gs, m, moves))) ==
            multiset(Concat(GroupRuns(gs, m, early))) + multiset(Concat(GroupSteps(gs, After(gs, m, early), last)))
  {
    var early, last := moves[..|moves| - 1], moves[|moves| - 1];
    ConcatAdds(GroupRuns(gs, m, early), GroupSteps(gs, After(gs, m, early), last), GroupRuns(gs, m, moves));
  }

  // A schedule dumps exactly what its groups dump, each as often.
  lemma {:induction false} ScheduleIsItsGroups(gs: Groups, m: HLARequestMeta, moves: seq<Move>)
    requires Shaped(gs, m) && Moves(gs, moves)
    ensures multiset(ScheduleRun(gs, m, moves)) == multiset(Concat(GroupRuns(gs, m, moves)))
  {
    if moves == [] {
      AllEmpty(GroupRuns(gs, m, moves));
    } else {
      var early, last := moves[..|moves| - 1], moves[|moves| - 1];
      ScheduleIsItsGroups(gs, m, early);
      RunsTakeSteps(gs, m, moves);
      StepIsItsGroups(gs, After(gs, m, early), last);
    }
  }

  // Pairs whose keys all lie in the first n groups.
  ghost predicate KeyBelow(gs: Groups, m: HLARequestMeta, key: Hash, n: nat)
    requires Shaped(gs, m) && n <= |gs.all|
  {
    exists g :: 0 <= g < n && KeyOfGroup(gs, m, g, key)
  }

  ghost predicate KeysBelow(gs: Groups, m: HLARequestMeta, run: seq<Pair>, n: nat)
    requires Shaped(gs, m) && n <= |gs.all|
  {
    forall k :: 0 <= k < |run| ==> KeyBelow(gs, m, run[k].key, n)
  }

  ghost predicate OnlyGroup(gs: Groups, m: HLARequestMeta, run: seq<Pair>, g: nat)
    requires Shaped(gs, m) && g < |gs.all|
  {
    forall k :: 0 <= k < |run| ==> KeyOfGroup(gs, m, g, run[k].key)
  }

  // Lists of distinct keys, one of each group.
  lemma {:induction false} ConcatDiffers(gs: Groups, tokens: seq<Token>, m: HLARequestMeta, lists: seq<seq<Pair>>)
    requires Shaped(gs, m) && IdsOf(gs, tokens, m.groupIds) && |lists| <= |gs.all|
    requires forall g :: 0 <= g < |lists| ==> KeysDiffer(lists[g]) && OnlyGroup(gs, m, lists[g], g)
    ensures KeysDiffer(Concat(lists)) && KeysBelow(gs, m, Concat(lists), |lists|)
  {
    if lists != [] {
      var n := |lists|;
      ConcatDiffers(gs, tokens, m, lists[..n - 1]);
      GroupsDiffer(gs, tokens, m, Concat(lists[..n - 1]), lists[n - 1], n);
      GroupsBelow(gs, m, Concat(lists[..n - 1]), lists[n - 1], n);
    }
  }

  lemma GroupsDiffer(gs: Groups, tokens: seq<Token>, m: HLARequestMeta, runs: seq<Pair>, run: seq<Pair>, n: nat)
    requires Shaped(gs, m) && 0 < n <= |gs.all| && IdsOf(gs, tokens, m.groupIds)
    requires KeysDiffer(runs) && KeysBelow(gs, m, runs, n - 1) && KeysDiffer(run) && OnlyGroup(gs, m, run, n - 1)
    ensures KeysDiffer(runs + run)
  {
    forall k, l | 0 <= k < |runs| && 0 <= l < |run| ensures runs[k].key != run[l].key {
      assert KeyBelow(gs, m, runs[k].key, n - 1);
      var g :| 0 <= g < n - 1 && KeyOfGroup(gs, m, g, runs[k].key);
      GroupsShareNoKey(gs, tokens, m, g, n - 1, runs[k].key);
    }
    DifferTogether(runs, run);
  }

  lemma DifferTogether(a: seq<Pair>, b: seq<Pair>)
    requires KeysDiffer(a) && KeysDiffer(b)
    requires forall k, l :: 0 <= k < |a| && 0 <= l < |b| ==> a[k].key != b[l].key
    ensures KeysDiffer(a + b)
  {
  }

  lemma GroupsBelow(gs: Groups, m: HLARequestMeta, runs: seq<Pair>, run: seq<Pair>, n: nat)
    requires Shaped(gs, m) && 0 < n <= |gs.all|
    requires KeysBelow(gs, m, runs, n - 1) && OnlyGroup(gs, m, run, n - 1)
    ensures KeysBelow(gs, m, runs + run, n)
  {
    var all := runs + run;
    forall k | 0 <= k < |all| ensures KeyBelow(gs, m, all[k].key, n) {
      if k < |runs| {
        assert KeyBelow(gs, m, runs[k].key, n - 1);
      } else {
        assert KeyOfGroup(gs, m, n - 1, run[k - |runs|].key);
      }
    }
  }

  lemma {:induction false} CountedTwice(run: seq<Pair>, p: Pair)
    requires multiset(run)[p] >= 2
    ensures exists i, j :: 0 <= i < j < |run| && run[i] == p && run[j] == p
  {
    var n := |run| - 1;
    assert run == run[..n] + [run[n]];
    if run[n] == p {
      assert p in multiset(run[..n]);
      var i :| 0 <= i < n && run[..n][i] == p;
      assert run[i] == p;
    } else {
      CountedTwice(run[..n], p);
      var i, j :| 0 <= i < j < n && run[..n][i] == p && run[..n][j] == p;
      assert run[i] == p && run[j] == p;
    }
  }

  // Distinct keys stay distinct in any order.
  lemma ReorderedDiffer(a: seq<Pair>, b: seq<Pair>)
    requires multiset(a) == multiset(b) && KeysDiffer(b)
    ensures KeysDiffer(a)
  {
    forall i, j | 0 <= i < j < |a| ensures a[i].key != a[j].key {
      if a[i] == a[j] {
        TwoPlaces(a, i, j);
        CountedTwice(b, a[i]);
      } else {
        assert a[i] in multiset(a) && a[j] in multiset(a);
        assert a[i] in multiset(b) && a[j] in multiset(b);
        var k :| 0 <= k < |b| && b[k] == a[i];
        var l :| 0 <= l < |b| && b[l] == a[j];
      }
    }
  }

  lemma TwoPlaces(a: seq<Pair>, i: nat, j: nat)
    requires i < j < |a| && a[i] == a[j]
    ensures multiset(a)[a[i]] >= 2
  {
    assert a == a[..i] + [a[i]] + a[i + 1..j] + [a[j]] + a[j + 1..];
  }

  // No schedule dumps a key of a request twice, in one group or in two.
  lemma DumpedOnce(gs: Groups, tokens: seq<Token>, m: HLARequestMeta, moves: seq<Move>)
    requires Shaped(gs, m) && Moves(gs, moves) && IdsOf(gs, tokens, m.groupIds)
    requires forall g :: 0 <= g < |gs.all| && !gs.all[g].isMambaAlign ==> TableGrows(gs, m, moves, g)
    ensures KeysDiffer(ScheduleRun(gs, m, moves))
  {
    ScheduleIsItsGroups(gs, m, moves);
    var lists := GroupRuns(gs, m, moves);
    forall g | 0 <= g < |lists| ensures KeysDiffer(lists[g]) && OnlyGroup(gs, m, lists[g], g) {
      GroupDumpsOnce(gs, tokens, m, moves, g);
      forall k | 0 <= k < |lists[g]| ensures KeyOfGroup(gs, m, g, lists[g][k].key) {
        GroupDumpsOwnKeys(gs, tokens, m, moves, g, k);
      }
    }
    ConcatDiffers(gs, tokens, m, lists);
    ReorderedDiffer(ScheduleRun(gs, m, moves), Concat(lists));
  }

  // In every run a step loads only keys that the lookup of the request found present,
  // and only into real blocks, whatever steps and tables came before it.
  lemma RunsLoadOnlyPresent(gs: Groups, m: HLARequestMeta, present: set<Hash>, moves: seq<Move>, move: Move, p: Pair)
    requires Backed(gs, m, present) && Moves(gs, moves) && |move.incoming| == |gs.all|
    requires p in StepLoad(gs, After(gs, m, moves), move)
    ensures p.key in present && p.block != 0
  {
    var now := WithTables(After(gs, m, moves), move);
    assert Backed(gs, now, present);
    LoadsArePresent(gs, now, present, p);
  }
}
