/**
 Cross-rank marking on the scheduler: the set of blocks known to be missing on some
 rank, the reports of all ranks that update it, and what lookups make of it.
 */
module RankMarks {
  import opened Prefixes
  import opened Sets

  type BlockId = nat
  type RequestId = nat

  const MAX_INCONSISTENT_BLOCKS: nat := 2_000_000

  class RankConsistencyTracker {
    var inconsistent: set<BlockId>

    ghost predicate Valid()
      reads this
    {
      |inconsistent| <= MAX_INCONSISTENT_BLOCKS
    }

    constructor ()
      ensures Valid() && inconsistent == {}
    {
      inconsistent := {};
    }

    // Adds one mark; a full set first loses an arbitrary one.
    method AddMark(blockId: BlockId) returns (evicted: bool)
      requires Valid() && blockId !in inconsistent
      modifies this
      ensures Valid() && inconsistent <= old(inconsistent) + {blockId}
      ensures evicted <==> |old(inconsistent)| >= MAX_INCONSISTENT_BLOCKS
      ensures !evicted ==> inconsistent == old(inconsistent) + {blockId}
      ensures evicted ==> |inconsistent| == MAX_INCONSISTENT_BLOCKS
    {
      evicted := |inconsistent| >= MAX_INCONSISTENT_BLOCKS;
      if evicted {
        var victim :| victim in inconsistent;
        inconsistent := inconsistent - {victim};
      }
      inconsistent := inconsistent + {blockId};
    }

    // Marks every block unless the cap is passed; then it keeps a full set of
    // marks, all of them old or reported ones.
    method MarkMissing(blockIds: set<BlockId>) returns (added: nat)
      requires Valid()
      modifies this
      ensures Valid()
      ensures inconsistent <= old(inconsistent) + blockIds
      ensures inconsistent == old(inconsistent) + blockIds <==>
              |old(inconsistent) + blockIds| <= MAX_INCONSISTENT_BLOCKS
      ensures |old(inconsistent) + blockIds| > MAX_INCONSISTENT_BLOCKS ==> |inconsistent| == MAX_INCONSISTENT_BLOCKS
      ensures |old(inconsistent) + blockIds| <= MAX_INCONSISTENT_BLOCKS ==>
                |inconsistent| == |old(inconsistent)| + added
    {
      added := 0;
      var evicted := 0;
      var rest := blockIds;
      ghost var all, done := inconsistent + blockIds, inconsistent;
      while rest != {}
        invariant done + rest == all && Valid()
        invariant inconsistent <= done
        invariant evicted == 0 ==> inconsistent == done && |inconsistent| == |old(inconsistent)| + added
        invariant evicted > 0 ==> |inconsistent| == MAX_INCONSISTENT_BLOCKS < |all|
        decreases rest
      {
        var blockId :| blockId in rest;
        rest := rest - {blockId};
        done := done + {blockId};
        if blockId in inconsistent {
          continue;
        }
        ghost var marks := inconsistent;
        var full := AddMark(blockId);
        added := added + 1;
        if full {
          if evicted == 0 {
            SubsetSize(marks + {blockId}, all);
          }
          evicted := evicted + 1;
        }
      }
    }

    method ClearDumped(blockIds: set<BlockId>) returns (cleared: nat)
      requires Valid()
      modifies this
      ensures Valid()
      ensures inconsistent == old(inconsistent) - blockIds
      ensures cleared == |old(inconsistent) * blockIds|
    {
      var before := |inconsistent|;
      assert inconsistent == (inconsistent - blockIds) + inconsistent * blockIds;
      SubsetSize(inconsistent - blockIds, inconsistent);
      inconsistent := inconsistent - blockIds;
      cleared := before - |inconsistent|;
    }

    method ValidPrefix(blockIds: seq<BlockId>) returns (prefix: seq<BlockId>)
      ensures prefix <= blockIds
      ensures forall b :: b in prefix ==> b !in inconsistent
      ensures |prefix| < |blockIds| ==> blockIds[|prefix|] in inconsistent
    {
      for index := 0 to |blockIds|
        invariant forall i :: 0 <= i < index ==> blockIds[i] !in inconsistent
      {
        if blockIds[index] in inconsistent {
          return blockIds[..index];
        }
      }
      return blockIds;
    }
  }

  // ------------------------------------------------------------ rank reports

  // What one rank reports for one step.
  datatype Report = Report(loadFailed: set<RequestId>, missingReqs: set<RequestId>,
                           missing: set<BlockId>, dumped: set<BlockId>)

  class UCMWorkerMetadata {
    const isMla: bool
    var loadFailedReqs: set<RequestId>
    var missingReqs: set<RequestId>
    var missingBlocks: set<BlockId>
    var dumpSucceededBlocks: set<BlockId>

    constructor (isMla: bool)
      ensures this.isMla == isMla && Value() == Report({}, {}, {}, {})
    {
      this.isMla := isMla;
      loadFailedReqs, missingReqs, missingBlocks, dumpSucceededBlocks := {}, {}, {}, {};
    }

    ghost function Value(): Report
      reads this
    {
      Report(loadFailedReqs, missingReqs, missingBlocks, dumpSucceededBlocks)
    }

    method MarkFailed(requestId: RequestId)
      modifies this
      ensures Value() == old(Value()).(loadFailed := old(loadFailedReqs) + {requestId})
    {
      loadFailedReqs := loadFailedReqs + {requestId};
    }

    method Aggregate(other: UCMWorkerMetadata)
      requires isMla == other.isMla
      modifies this
      ensures Value() == Joined(isMla, old(Value()), old(other.Value()))
    {
      loadFailedReqs := loadFailedReqs + other.loadFailedReqs;
      missingReqs := missingReqs + other.missingReqs;
      missingBlocks := missingBlocks + other.missingBlocks;
      if isMla {
        dumpSucceededBlocks := dumpSucceededBlocks + other.dumpSucceededBlocks;
      } else {
        dumpSucceededBlocks := dumpSucceededBlocks * other.dumpSucceededBlocks;
      }
    }
  }

  function Joined(isMla: bool, a: Report, b: Report): Report {
    Report(a.loadFailed + b.loadFailed, a.missingReqs + b.missingReqs, a.missing + b.missing,
           if isMla then a.dumped + b.dumped else a.dumped * b.dumped)
  }

  // The reports of all ranks of one step folded into the first.
  function Folded(isMla: bool, ranks: seq<Report>): Report
    requires ranks != []
  {
    if |ranks| == 1 then ranks[0] else Joined(isMla, Folded(isMla, ranks[..|ranks| - 1]), ranks[|ranks| - 1])
  }

  // A block is reported missing by the step when some rank misses it, and dumped
  // when all ranks dumped it (any rank for MLA): the order of the ranks is immaterial.
  ghost predicate MissingInStep(ranks: seq<Report>, b: BlockId) {
    exists r :: 0 <= r < |ranks| && b in ranks[r].missing
  }

  ghost predicate DumpedInStep(isMla: bool, ranks: seq<Report>, b: BlockId) {
    if isMla then exists r :: 0 <= r < |ranks| && b in ranks[r].dumped
    else forall r :: 0 <= r < |ranks| ==> b in ranks[r].dumped
  }

  lemma {:induction false} FoldedMeaning(isMla: bool, ranks: seq<Report>, b: BlockId)
    requires ranks != []
    ensures b in Folded(isMla, ranks).missing <==> MissingInStep(ranks, b)
    ensures b in Folded(isMla, ranks).dumped <==> DumpedInStep(isMla, ranks, b)
  {
    var n := |ranks| - 1;
    if n > 0 {
      var front := ranks[..n];
      FoldedMeaning(isMla, front, b);
      assert forall r :: 0 <= r < n ==> front[r] == ranks[r];
      assert MissingInStep(ranks, b) <==> MissingInStep(front, b) || b in ranks[n].missing by {
        if MissingInStep(front, b) { var r :| 0 <= r < n && b in front[r].missing; assert b in ranks[r].missing; }
      }
      if isMla {
        if DumpedInStep(true, front, b) { var r :| 0 <= r < n && b in front[r].dumped; assert b in ranks[r].dumped; }
      } else {
        if DumpedInStep(false, ranks, b) { assert forall r :: 0 <= r < n ==> b in ranks[r].dumped; }
      }
    }
  }

  // Requests are reported by the step when some rank reports them.
  lemma {:induction false} FoldedRequests(isMla: bool, ranks: seq<Report>, q: RequestId)
    requires ranks != []
    ensures q in Folded(isMla, ranks).loadFailed <==> exists r :: 0 <= r < |ranks| && q in ranks[r].loadFailed
    ensures q in Folded(isMla, ranks).missingReqs <==> exists r :: 0 <= r < |ranks| && q in ranks[r].missingReqs
  {
    var n := |ranks| - 1;
    if n > 0 {
      FoldedRequests(isMla, ranks[..n], q);
      assert forall r :: 0 <= r < n ==> ranks[..n][r] == ranks[r];
    }
  }

  // Any order of the ranks folds to the same report.
  lemma FoldOrderIrrelevant(isMla: bool, ranks: seq<Report>, other: seq<Report>)
    requires ranks != [] && other != []
    requires forall x :: x in ranks <==> x in other
    ensures Folded(isMla, ranks) == Folded(isMla, other)
  {
    var f, g := Folded(isMla, ranks), Folded(isMla, other);
    forall b ensures (b in f.missing <==> b in g.missing) && (b in f.dumped <==> b in g.dumped) {
      FoldedMeaning(isMla, ranks, b);
      FoldedMeaning(isMla, other, b);
      SameElementsSameStep(isMla, ranks, other, b);
      SameElementsSameStep(isMla, other, ranks, b);
    }
    forall q ensures (q in f.loadFailed <==> q in g.loadFailed) && (q in f.missingReqs <==> q in g.missingReqs) {
      FoldedRequests(isMla, ranks, q);
      FoldedRequests(isMla, other, q);
      SameElementsSameRequests(ranks, other, q);
      SameElementsSameRequests(other, ranks, q);
    }
    assert f.missing == g.missing && f.dumped == g.dumped && f.loadFailed == g.loadFailed && f.missingReqs == g.missingReqs;
  }

  lemma SameElementsSameRequests(ranks: seq<Report>, other: seq<Report>, q: RequestId)
    requires forall x :: x in ranks <==> x in other
    ensures (exists r :: 0 <= r < |ranks| && q in ranks[r].loadFailed) ==> exists r :: 0 <= r < |other| && q in other[r].loadFailed
    ensures (exists r :: 0 <= r < |ranks| && q in ranks[r].missingReqs) ==> exists r :: 0 <= r < |other| && q in other[r].missingReqs
  {
    forall r | 0 <= r < |ranks| ensures exists p :: 0 <= p < |other| && other[p] == ranks[r] {
      assert ranks[r] in other;
    }
  }

  lemma SameElementsSameStep(isMla: bool, ranks: seq<Report>, other: seq<Report>, b: BlockId)
    requires forall x :: x in ranks <==> x in other
    ensures MissingInStep(ranks, b) ==> MissingInStep(other, b)
    ensures DumpedInStep(isMla, ranks, b) ==> DumpedInStep(isMla, other, b)
  {
    if MissingInStep(ranks, b) {
      var r :| 0 <= r < |ranks| && b in ranks[r].missing;
      assert ranks[r] in other;
      var q :| 0 <= q < |other| && other[q] == ranks[r];
    }
    if isMla && DumpedInStep(true, ranks, b) {
      var r :| 0 <= r < |ranks| && b in ranks[r].dumped;
      assert ranks[r] in other;
      var q :| 0 <= q < |other| && other[q] == ranks[r];
    }
    if !isMla && DumpedInStep(false, ranks, b) {
      forall q | 0 <= q < |other| ensures b in other[q].dumped {
        assert other[q] in ranks;
      }
    }
  }

  // Folds the metadata of all ranks into that of the first, in place.
  method AggregateRanks(ranks: seq<UCMWorkerMetadata>) returns (all: UCMWorkerMetadata)
    requires ranks != []
    requires forall r :: 0 <= r < |ranks| ==> ranks[r].isMla == ranks[0].isMla
    requires forall r :: 0 < r < |ranks| ==> ranks[r] != ranks[0]
    modifies ranks[0]
    ensures all == ranks[0]
    ensures all.Value() == Folded(all.isMla, old(Values(ranks)))
  {
    all := ranks[0];
    ghost var values := Values(ranks);
    for r := 1 to |ranks|
      invariant all.Value() == Folded(all.isMla, values[..r])
      invariant forall k :: 0 < k < |ranks| ==> ranks[k].Value() == values[k]
    {
      all.Aggregate(ranks[r]);
      assert values[..r + 1][..r] == values[..r];
    }
    assert values[..|ranks|] == values;
  }

  ghost function Values(ranks: seq<UCMWorkerMetadata>): (v: seq<Report>)
    reads ranks
    ensures |v| == |ranks| && forall r :: 0 <= r < |ranks| ==> v[r] == ranks[r].Value()
  {
    seq(|ranks|, r requires 0 <= r < |ranks| reads ranks => ranks[r].Value())
  }

  // ----------------------------------------------------------------- history

  type History = seq<seq<Report>>

  ghost predicate AllReported(history: History) {
    forall k :: 0 <= k < |history| ==> history[k] != []
  }

  // The marks after a history of steps, each clearing before it marks.
  ghost function Marks(isMla: bool, history: History): set<BlockId>
    requires AllReported(history)
  {
    if history == [] then {}
    else
      var n := |history| - 1;
      var step := Folded(isMla, history[n]);
      Marks(isMla, history[..n]) - step.dumped + step.missing
  }

  // No step ever held more marks than the cap.
  ghost predicate BelowCap(isMla: bool, history: History)
    requires AllReported(history)
  {
    history != [] ==>
      var n := |history| - 1;
      BelowCap(isMla, history[..n]) && |Marks(isMla, history)| <= MAX_INCONSISTENT_BLOCKS
  }

  // A block is marked exactly when some step reported it missing on some rank and
  // no later step reported its dump on the ranks that must dump it.
  lemma {:induction false} MarkedIffHistorySays(isMla: bool, history: History, b: BlockId)
    requires AllReported(history)
    ensures b in Marks(isMla, history) <==>
            exists k :: 0 <= k < |history| && MissingInStep(history[k], b)
                        && forall j :: k < j < |history| ==> !DumpedInStep(isMla, history[j], b)
  {
    if history != [] {
      var n := |history| - 1;
      var front := history[..n];
      MarkedIffHistorySays(isMla, front, b);
      FoldedMeaning(isMla, history[n], b);
      if MissingInStep(history[n], b) {
        assert b in Marks(isMla, history);
      } else if b in Marks(isMla, history) {
        var k :| 0 <= k < |front| && MissingInStep(front[k], b)
                 && forall j :: k < j < |front| ==> !DumpedInStep(isMla, front[j], b);
        forall j | k < j < |history| ensures !DumpedInStep(isMla, history[j], b) {
          if j < n { assert front[j] == history[j]; }
        }
        assert history[k] == front[k];
      }
    }
  }

  // The scheduler's half of the consistency manager.
  class SchedulerMarks {
    const enabled: bool
    const isMla: bool
    const tracker: RankConsistencyTracker
    ghost var history: History

    ghost predicate Valid()
      reads this, tracker
    {
      && AllReported(history)
      && (enabled ==>
            && tracker.Valid()
            && tracker.inconsistent <= Marks(isMla, history)
            && (BelowCap(isMla, history) ==> tracker.inconsistent == Marks(isMla, history)))
    }

    constructor (enabled: bool, isMla: bool)
      ensures Valid() && fresh(this.tracker) && history == []
      ensures this.enabled == enabled && this.isMla == isMla
    {
      this.enabled := enabled;
      this.isMla := isMla;
      tracker := new RankConsistencyTracker();
      history := [];
    }

    // The blocks that lookups must not report as hits.
    ghost function Masked(): set<BlockId>
      reads this, tracker
    {
      if enabled then tracker.inconsistent else {}
    }

    method ApplyWorkerMeta(meta: UCMWorkerMetadata, ghost ranks: seq<Report>)
      requires Valid() && ranks != [] && meta.Value() == Folded(isMla, ranks)
      modifies this, tracker
      ensures Valid() && history == old(history) + [ranks]
    {
      ghost var before := history;
      history := history + [ranks];
      assert history[..|history| - 1] == before;
      if !enabled {
        return;
      }
      var cleared := tracker.ClearDumped(meta.dumpSucceededBlocks);
      var added := tracker.MarkMissing(meta.missingBlocks);
    }

    // The number of leading blocks both stored and unmarked, minus one.
    method LookupOnPrefix(present: set<BlockId>, blockIds: seq<BlockId>) returns (last: int)
      requires Valid()
      ensures last + 1 == LongestIn(blockIds, present - Masked())
    {
      var candidates := blockIds;
      if enabled {
        candidates := tracker.ValidPrefix(blockIds);
        PrefixLookup(blockIds, candidates, present, tracker.inconsistent);
        if candidates == [] {
          return -1;
        }
      } else {
        assert present - {} == present;
      }
      last := StoreLookupOnPrefix(present, candidates);
    }

    method LookupAll(present: set<BlockId>, blockIds: seq<BlockId>) returns (results: seq<bool>)
      requires Valid()
      ensures |results| == |blockIds|
      ensures forall i :: 0 <= i < |blockIds| ==> (results[i] <==> blockIds[i] in present - Masked())
    {
      results := [];
      for i := 0 to |blockIds|
        invariant |results| == i
        invariant forall k :: 0 <= k < i ==> (results[k] <==> blockIds[k] in present - Masked())
      {
        var found := blockIds[i] in present;
        if enabled && blockIds[i] in tracker.inconsistent {
          found := false;
        }
        results := results + [found];
      }
    }
  }

  lemma PrefixLookup(blockIds: seq<BlockId>, prefix: seq<BlockId>, present: set<BlockId>, marked: set<BlockId>)
    requires prefix <= blockIds && (forall b :: b in prefix ==> b !in marked)
    requires |prefix| < |blockIds| ==> blockIds[|prefix|] in marked
    ensures LongestIn(prefix, present) == LongestIn(blockIds, present - marked)
  {
    var n, m := LongestIn(prefix, present), LongestIn(blockIds, present - marked);
    assert forall i :: 0 <= i < |prefix| ==> prefix[i] == blockIds[i] && prefix[i] in prefix;
  }

  // The store's own prefix lookup: the index of the last leading block it holds, or -1.
  method StoreLookupOnPrefix(present: set<BlockId>, blockIds: seq<BlockId>) returns (last: int)
    ensures last + 1 == LongestIn(blockIds, present)
  {
    last := -1;
    while last + 1 < |blockIds| && blockIds[last + 1] in present
      invariant -1 <= last < |blockIds|
      invariant forall i :: 0 <= i <= last ==> blockIds[i] in present
    {
      last := last + 1;
    }
  }
}
