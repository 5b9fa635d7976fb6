/**
 Requests over full-attention and window groups: which canonical hash blocks are found,
 loaded and dumped, and how the ranks of a tensor-parallel group share the dump.
 */
module FawaPlan {
  import opened Wrappers
  import opened Prefixes
  import opened Arithmetic
  import opened HashChain
  import DirectScheduler

  // --------------------------------------------------------------------- lookup

  // The longest hit: a prefix in the full-attention store that ends on a boundary the
  // window store holds.
  ghost predicate IsHit(keys: seq<Hash>, fa: set<Hash>, wa: set<Hash>, n: nat) {
    n == 0 || (n <= |keys| && (forall i :: 0 <= i < n ==> keys[i] in fa) && keys[n - 1] in wa)
  }

  // Scans the boundaries backward from the end of the full-attention prefix. The scan
  // also asks for the last key of the list when no boundary is left.
  method LookupExternalHitBlocks(keys: seq<Hash>, fa: set<Hash>, wa: set<Hash>) returns (hits: nat)
    requires keys != []
    ensures IsLongestHit(keys, fa, wa, hits)
  {
    var prefix := LongestIn(keys, fa);
    if prefix == 0 {
      return 0;
    }
    var n: int := prefix;
    while n >= 0
      invariant -1 <= n <= prefix
      invariant forall m: nat :: n < m <= prefix && IsHit(keys, fa, wa, m) ==> m == 0
    {
      var key := keys[if n == 0 then |keys| - 1 else n - 1];
      if key in wa {
        return n;
      }
      n := n - 1;
    }
    hits := 0;
  }

  datatype FawaConfig = FawaConfig(hashBlockSize: nat, seed: Hash, persistThreshold: nat, loadThreshold: nat)

  datatype FawaMeta = FawaMeta(ids: seq<Hash>, hbmHit: nat, totalHit: nat, numTokens: nat, processed: nat, tables: seq<seq<nat>>)

  // A request that is tracked after matching.
  ghost predicate MatchedRequest(c: FawaConfig, tokens: seq<Token>, computed: nat, fa: set<Hash>, wa: set<Hash>,
                                 m: FawaMeta, external: nat)
    requires 0 < c.hashBlockSize
  {
    var local := BlocksIn(computed, c.hashBlockSize);
    var hits := m.totalHit - local;
    && m.ids == Chain(0, c.hashBlockSize, tokens, c.seed) && m.numTokens == |tokens| && m.tables == []
    && local <= m.totalHit <= |m.ids| && local < |m.ids|
    && IsLongestHit(m.ids[local..], fa, wa, hits)
    && Promised(c.loadThreshold, |tokens|, computed, local, hits * c.hashBlockSize, m.totalHit * c.hashBlockSize, m, external)
  }

  ghost predicate IsLongestHit(keys: seq<Hash>, fa: set<Hash>, wa: set<Hash>, hits: nat) {
    IsHit(keys, fa, wa, hits) && forall n: nat :: IsHit(keys, fa, wa, n) ==> n <= hits
  }

  // A hit within the threshold is neither promised nor loaded.
  ghost predicate Promised(threshold: nat, length: nat, computed: nat, local: nat, hitTokens: nat, totalTokens: nat,
                           m: FawaMeta, external: nat)
  {
    if hitTokens <= threshold
    then external == 0 && m.hbmHit == m.totalHit && m.processed == computed
    else m.hbmHit == local && m.processed == totalTokens &&
         computed + external == if m.processed == length then length - 1 else m.processed
  }

  // Matches a request; None when it is too short or has no whole block left. A request
  // that the store covers wholly still leaves its last token to compute.
  method GetNumNewMatchedTokens(c: FawaConfig, tokens: seq<Token>, computed: nat, fa: set<Hash>, wa: set<Hash>, fails: bool)
      returns (meta: Option<FawaMeta>, external: nat)
    requires 0 < c.hashBlockSize && computed <= |tokens|
    ensures meta.None? <==>
              || |tokens| <= c.persistThreshold
              || |tokens| <= BlocksIn(computed, c.hashBlockSize) * c.hashBlockSize + c.loadThreshold
              || BlocksIn(|tokens|, c.hashBlockSize) <= BlocksIn(computed, c.hashBlockSize)
    ensures meta.None? ==> external == 0
    ensures meta.Some? ==> MatchedRequest(c, tokens, computed, if fails then {} else fa, wa, meta.value, external)
    ensures meta.Some? ==> meta.value.processed <= |tokens|
  {
    var h := c.hashBlockSize;
    var local := computed / h;
    BlocksInIsQuotient(computed, h);
    var localTokens := local * h;
    if |tokens| <= c.persistThreshold || |tokens| <= localTokens + c.loadThreshold {
      return None, 0;
    }
    var ids := GenerateHash(0, h, tokens, c.seed);
    if |ids| <= local {
      return None, 0;
    }
    var m;
    m, external := TrackRequest(c, tokens, computed, ids, local, localTokens, if fails then {} else fa, wa);
    meta := Some(m);
  }

  // Looks a request up beyond its computed blocks.
  method TrackRequest(c: FawaConfig, tokens: seq<Token>, computed: nat, ids: seq<Hash>, local: nat, localTokens: nat,
                      fa: set<Hash>, wa: set<Hash>)
      returns (meta: FawaMeta, external: nat)
    requires 0 < c.hashBlockSize && computed <= |tokens| && ids == Chain(0, c.hashBlockSize, tokens, c.seed)
    requires local == BlocksIn(computed, c.hashBlockSize) < |ids| && localTokens == local * c.hashBlockSize
    ensures MatchedRequest(c, tokens, computed, fa, wa, meta, external) && meta.processed <= |tokens|
  {
    var hits := LookupExternalHitBlocks(ids[local..], fa, wa);
    var hitTokens := hits * c.hashBlockSize;
    MatchIsTracked(c, tokens, computed, fa, wa, ids, local, hits, hitTokens, localTokens);
    var total := hitTokens + localTokens;
    if hitTokens <= c.loadThreshold {
      return FawaMeta(ids, local + hits, local + hits, |tokens|, computed, []), 0;
    }
    external := if total == |tokens| then total - computed - 1 else total - computed;
    meta := FawaMeta(ids, local, local + hits, |tokens|, total, []);
  }

  lemma MatchIsTracked(c: FawaConfig, tokens: seq<Token>, computed: nat, fa: set<Hash>, wa: set<Hash>, ids: seq<Hash>,
                       local: nat, hits: nat, hitTokens: nat, localTokens: nat)
    requires 0 < c.hashBlockSize && computed <= |tokens| && ids == Chain(0, c.hashBlockSize, tokens, c.seed)
    requires local == BlocksIn(computed, c.hashBlockSize) < |ids| && IsLongestHit(ids[local..], fa, wa, hits)
    requires localTokens == local * c.hashBlockSize && hitTokens == hits * c.hashBlockSize
    ensures hitTokens + localTokens <= |tokens|
    ensures hits > 0 ==> computed < hitTokens + localTokens
    ensures forall m: FawaMeta, external: nat ::
              && m.ids == ids && m.totalHit == local + hits && m.numTokens == |tokens| && m.tables == []
              && Promised(c.loadThreshold, |tokens|, computed, local, hitTokens, hitTokens + localTokens, m, external) ==>
              MatchedRequest(c, tokens, computed, fa, wa, m, external)
  {
    MatchArithmetic(c.hashBlockSize, |tokens|, computed, hits);
    assert (local + hits) - local == hits;
  }

  // A hit over the threshold is promised as far as one token is left to compute.
  lemma PromiseIsLargest(c: FawaConfig, tokens: seq<Token>, computed: nat, fa: set<Hash>, wa: set<Hash>, m: FawaMeta, external: nat)
    requires 0 < c.hashBlockSize && computed <= |tokens| && MatchedRequest(c, tokens, computed, fa, wa, m, external)
    requires m.hbmHit < m.totalHit
    ensures m.hbmHit == BlocksIn(computed, c.hashBlockSize)
    ensures DirectScheduler.LargestPromise(|tokens|, m.totalHit * c.hashBlockSize, computed, 1, external)
  {
    var local := BlocksIn(computed, c.hashBlockSize);
    MatchArithmetic(c.hashBlockSize, |tokens|, computed, m.totalHit - local);
    assert local + (m.totalHit - local) == m.totalHit;
  }

  // Every key a matched request loads is in the full-attention store, and the window
  // store holds the boundary the load ends on.
  lemma LoadsAreHeld(c: FawaConfig, tokens: seq<Token>, computed: nat, fa: set<Hash>, wa: set<Hash>, m: FawaMeta, external: nat, i: nat)
    requires 0 < c.hashBlockSize && MatchedRequest(c, tokens, computed, fa, wa, m, external)
    requires m.hbmHit <= i < m.totalHit
    ensures m.ids[i] in fa && m.ids[m.totalHit - 1] in wa
  {
    HitHolds(m.ids, BlocksIn(computed, c.hashBlockSize), m.totalHit, fa, wa, i);
  }

  lemma HitHolds(ids: seq<Hash>, local: nat, total: nat, fa: set<Hash>, wa: set<Hash>, i: nat)
    requires local <= i < total <= |ids| && IsHit(ids[local..], fa, wa, total - local)
    ensures ids[i] in fa && ids[total - 1] in wa
  {
    assert ids[local..][i - local] == ids[i];
    assert ids[local..][total - local - 1] == ids[total - 1];
  }

  lemma MatchArithmetic(h: nat, length: nat, computed: nat, hits: nat)
    requires 0 < h && computed <= length && BlocksIn(computed, h) + hits <= BlocksIn(length, h)
    ensures hits * h + BlocksIn(computed, h) * h == (BlocksIn(computed, h) + hits) * h <= length
    ensures hits > 0 ==> computed < hits * h + BlocksIn(computed, h) * h
  {
    var local := BlocksIn(computed, h);
    BlocksInBounds(computed, h);
    BlocksInBounds(length, h);
    Distribute(local, hits, h);
    MulMonotone(local + hits, BlocksIn(length, h), h);
    if hits > 0 {
      MulMonotone(1, hits, h);
    }
  }

  // ----------------------------------------------------------------- dump windows

  function DumpStart(m: FawaMeta, h: nat): nat
    requires 0 < h
  {
    var at := BlocksIn(m.processed, h);
    if m.totalHit <= at then at else m.totalHit
  }

  function ComputedEnd(m: FawaMeta, newTokens: nat): nat {
    if m.numTokens <= m.processed + newTokens then m.numTokens else m.processed + newTokens
  }

  function DumpKeys(m: FawaMeta, h: nat, newTokens: nat): seq<Hash>
    requires 0 < h
  {
    Slice(m.ids, DumpStart(m, h), BlocksIn(ComputedEnd(m, newTokens), h))
  }

  function Stepped(m: FawaMeta, newTokens: nat): FawaMeta {
    m.(processed := ComputedEnd(m, newTokens))
  }

  function AfterSteps(m: FawaMeta, steps: seq<nat>): FawaMeta {
    if steps == [] then m else Stepped(AfterSteps(m, steps[..|steps| - 1]), steps[|steps| - 1])
  }

  // What a schedule dumps in all.
  function DumpedKeys(m: FawaMeta, h: nat, steps: seq<nat>): seq<Hash>
    requires 0 < h
  {
    if steps == [] then []
    else
      var early := steps[..|steps| - 1];
      DumpedKeys(m, h, early) + DumpKeys(AfterSteps(m, early), h, steps[|steps| - 1])
  }

  lemma SlicesJoin<T>(s: seq<T>, a: nat, b: nat, c: nat)
    requires a <= b <= c
    ensures Slice(s, a, b) + Slice(s, b, c) == Slice(s, a, c)
  {
  }

  // However a request is cut into steps, its steps dump the keys after its hit, up to
  // the last whole block computed, each once and in order.
  lemma {:induction false} DumpsAreOneRun(m: FawaMeta, h: nat, steps: seq<nat>)
    requires 0 < h && m.processed <= m.numTokens && BlocksIn(m.processed, h) <= m.totalHit
    ensures var end := AfterSteps(m, steps);
            && m.processed <= end.processed <= m.numTokens && end == m.(processed := end.processed)
            && DumpedKeys(m, h, steps) == Slice(m.ids, m.totalHit, BlocksIn(end.processed, h))
  {
    if steps == [] {
      assert Slice(m.ids, m.totalHit, BlocksIn(m.processed, h)) == [];
    } else {
      var early := steps[..|steps| - 1];
      DumpsAreOneRun(m, h, early);
      var mid, end := AfterSteps(m, early), AfterSteps(m, steps);
      BlocksInMonotone(mid.processed, end.processed, h);
      RunGrows(m.ids, m.totalHit, BlocksIn(mid.processed, h), BlocksIn(end.processed, h));
    }
  }

  lemma RunGrows(ids: seq<Hash>, total: nat, mid: nat, end: nat)
    requires mid <= end
    ensures Slice(ids, total, mid) + Slice(ids, if total <= mid then mid else total, end) == Slice(ids, total, end)
  {
  }

  // -------------------------------------------------------- blocks behind the keys

  // One cache group: its tokens per block, and the window tail kept at a boundary.
  datatype GroupMeta = GroupMeta(tokenBlockSize: nat, tailBlocks: nat, tailTokens: nat, isWindow: bool)

  function BlockOf(h: nat, tokenBlockSize: nat, i: nat): nat
    requires 0 < h && 0 < tokenBlockSize
  {
    BlocksIn(i * h + h - 1, tokenBlockSize)
  }

  // An array element by an index that may count from the end, or be out of range.
  function ElementAt(table: seq<nat>, i: int): Option<nat> {
    if 0 <= i < |table| then Some(table[i]) else if -|table| <= i < 0 then Some(table[|table| + i]) else None
  }

  // The tail blocks at the boundary of key i, first to last.
  function TailRow(g: GroupMeta, table: seq<nat>, h: nat, i: nat): (r: seq<Option<nat>>)
    requires 0 < h && 0 < g.tokenBlockSize
    ensures |r| == g.tailBlocks
  {
    seq(g.tailBlocks, k => ElementAt(table, BlockOf(h, g.tokenBlockSize, i) - (g.tailBlocks - 1 - k)))
  }

  // What a group contributes for one key: a window without tail contributes nothing.
  function KeyRow(g: GroupMeta, table: seq<nat>, h: nat, i: nat): (r: seq<Option<nat>>)
    requires 0 < h && 0 < g.tokenBlockSize
    ensures |r| == RowWidth(g)
  {
    if !g.isWindow then [ElementAt(table, BlockOf(h, g.tokenBlockSize, i))]
    else if g.tailTokens == 0 then []
    else TailRow(g, table, h, i)
  }

  function RowWidth(g: GroupMeta): nat {
    if !g.isWindow then 1 else if g.tailTokens == 0 then 0 else g.tailBlocks
  }

  // What a group contributes for the keys [from..to), row after row.
  function GroupRows(g: GroupMeta, table: seq<nat>, h: nat, from: nat, to: nat): seq<Option<nat>>
    requires 0 < h && 0 < g.tokenBlockSize
    decreases (to)
  {
    if to <= from then [] else GroupRows(g, table, h, from, to - 1) + KeyRow(g, table, h, to - 1)
  }

  lemma {:induction false} GroupRowsLength(g: GroupMeta, table: seq<nat>, h: nat, from: nat, n: nat)
    requires 0 < h && 0 < g.tokenBlockSize
    ensures |GroupRows(g, table, h, from, from + n)| == n * RowWidth(g)
  {
    if n > 0 {
      GroupRowsLength(g, table, h, from, n - 1);
      assert n * RowWidth(g) == (n - 1) * RowWidth(g) + RowWidth(g);
    }
  }

  lemma {:induction false} GroupRowsJoin(g: GroupMeta, table: seq<nat>, h: nat, from: nat, mid: nat, to: nat)
    requires 0 < h && 0 < g.tokenBlockSize && from <= mid <= to
    ensures GroupRows(g, table, h, from, mid) + GroupRows(g, table, h, mid, to) == GroupRows(g, table, h, from, to)
    decreases (to)
  {
    if mid < to {
      GroupRowsJoin(g, table, h, from, mid, to - 1);
    }
  }

  // By how much a slice of keys is scaled to slice a group's rows.
  function Scale(g: GroupMeta): nat { if g.isWindow then g.tailBlocks else 1 }

  // A slice of a group's rows, scaled, is exactly the rows of the same slice of keys.
  lemma RowsOfKeySlice(g: GroupMeta, table: seq<nat>, h: nat, from: nat, to: nat, a: nat, b: nat)
    requires 0 < h && 0 < g.tokenBlockSize && a <= b && from + b <= to
    ensures Slice(GroupRows(g, table, h, from, to), a * Scale(g), b * Scale(g)) == GroupRows(g, table, h, from + a, from + b)
  {
    if g.isWindow && g.tailTokens == 0 {
      NoRows(g, table, h, from, to);
      NoRows(g, table, h, from + a, from + b);
    } else {
      RowsOfWidth(g, table, h, from, to, a, b);
    }
  }

  lemma {:induction false} NoRows(g: GroupMeta, table: seq<nat>, h: nat, from: nat, to: nat)
    requires 0 < h && 0 < g.tokenBlockSize && g.isWindow && g.tailTokens == 0
    ensures GroupRows(g, table, h, from, to) == []
    decreases (to)
  {
    if from < to {
      NoRows(g, table, h, from, to - 1);
    }
  }

  lemma RowsOfWidth(g: GroupMeta, table: seq<nat>, h: nat, from: nat, to: nat, a: nat, b: nat)
    requires 0 < h && 0 < g.tokenBlockSize && a <= b && from + b <= to
    ensures a * RowWidth(g) <= b * RowWidth(g) <= |GroupRows(g, table, h, from, to)|
    ensures GroupRows(g, table, h, from, to)[a * RowWidth(g)..b * RowWidth(g)] == GroupRows(g, table, h, from + a, from + b)
  {
    var w := RowWidth(g);
    GroupRowsLength(g, table, h, from, to - from);
    GroupRowsLength(g, table, h, from, a);
    GroupRowsLength(g, table, h, from, b);
    MulMonotone(a, b, w);
    MulMonotone(b, to - from, w);
    GroupRowsJoin(g, table, h, from, from + a, from + b);
    GroupRowsJoin(g, table, h, from, from + b, to);
    SplitInThree(GroupRows(g, table, h, from, from + a), GroupRows(g, table, h, from + a, from + b),
                 GroupRows(g, table, h, from + b, to), a * w, b * w);
  }

  lemma SplitInThree<T>(x: seq<T>, y: seq<T>, z: seq<T>, i: nat, j: nat)
    requires |x| == i && |x| + |y| == j
    ensures (x + y + z)[i..j] == y
  {
  }

  // A window's row holds the tail blocks that end at its boundary.
  ghost predicate TailInside(g: GroupMeta, table: seq<nat>, h: nat, i: nat)
    requires 0 < h && 0 < g.tokenBlockSize
  {
    var first := BlockOf(h, g.tokenBlockSize, i) + 1 - g.tailBlocks;
    forall k :: 0 <= k < g.tailBlocks ==>
      0 <= first + k < |table| && TailRow(g, table, h, i)[k] == Some(table[first + k])
  }

  lemma TailIsInside(g: GroupMeta, table: seq<nat>, h: nat, i: nat)
    requires 0 < h && 0 < g.tokenBlockSize
    requires BlockOf(h, g.tokenBlockSize, i) < |table| && g.tailBlocks <= BlockOf(h, g.tokenBlockSize, i) + 1
    ensures TailInside(g, table, h, i)
  {
    var first := BlockOf(h, g.tokenBlockSize, i) + 1 - g.tailBlocks;
    forall k | 0 <= k < g.tailBlocks ensures TailRow(g, table, h, i)[k] == Some(table[first + k]) {
      assert TailRow(g, table, h, i)[k] == ElementAt(table, first + k);
    }
  }

  // For every table that covers a boundary, the row holds the blocks that end there,
  // exactly when the tail has no more blocks than the first boundary leaves before it.
  lemma TailsInsideIff(g: GroupMeta, h: nat)
    requires 0 < h && 0 < g.tokenBlockSize
    ensures (forall table: seq<nat>, i: nat :: BlockOf(h, g.tokenBlockSize, i) < |table| ==> TailInside(g, table, h, i)) <==>
            g.tailBlocks <= BlockOf(h, g.tokenBlockSize, 0) + 1
  {
    var first := BlockOf(h, g.tokenBlockSize, 0);
    if g.tailBlocks <= first + 1 {
      forall table: seq<nat>, i: nat | BlockOf(h, g.tokenBlockSize, i) < |table| ensures TailInside(g, table, h, i) {
        FirstBoundaryIsLeast(h, g.tokenBlockSize, i);
        TailIsInside(g, table, h, i);
      }
    } else {
      var table := seq(first + 1, k => k);
      var row := TailRow(g, table, h, 0);
      assert row[0] == ElementAt(table, first + 1 - g.tailBlocks);
      assert BlockOf(h, g.tokenBlockSize, 0) < |table| && !TailInside(g, table, h, 0);
    }
  }

  lemma FirstBoundaryIsLeast(h: nat, t: nat, i: nat)
    requires 0 < h && 0 < t
    ensures BlockOf(h, t, 0) <= BlockOf(h, t, i)
  {
    assert 0 * h == 0 <= i * h;
    BlocksInMonotone(h - 1, i * h + h - 1, t);
  }

  // A tail of at most one hash block is always inside.
  lemma ShortTailsAreInside(g: GroupMeta, h: nat)
    requires 0 < h && 0 < g.tokenBlockSize && g.tailTokens <= h
    requires g.tailBlocks == (if g.tailTokens < g.tokenBlockSize then 1 else g.tailTokens / g.tokenBlockSize)
    ensures g.tailBlocks <= BlockOf(h, g.tokenBlockSize, 0) + 1
  {
    TailFits(h, g.tokenBlockSize, 0, g.tailTokens);
  }

  lemma TailFits(h: nat, t: nat, i: nat, tail: nat)
    requires 0 < h && 0 < t && tail <= h
    ensures t <= tail ==> tail / t <= BlockOf(h, t, i) + 1
  {
    if t <= tail {
      assert i * h >= 0;
      var last := i * h + h - 1;
      BlocksInIsQuotient(tail, t);
      BlocksInMonotone(tail, last + 1, t);
      OneMoreToken(last, t);
    }
  }

  lemma {:induction false} OneMoreToken(length: nat, size: nat)
    requires 0 < size
    ensures BlocksIn(length + 1, size) <= BlocksIn(length, size) + 1
  {
    if size <= length {
      OneMoreToken(length - size, size);
    }
  }

  // A longer tail can reach before the table and then takes blocks from its end.
  lemma LongTailWraps()
    ensures var g := GroupMeta(4, 3, 12, true); TailRow(g, [7, 8, 9], 8, 0) == [Some(9), Some(7), Some(8)]
  {
    var g := GroupMeta(4, 3, 12, true);
    BlocksInIsQuotient(7, 4);
    assert BlockOf(8, 4, 0) == 1;
    assert TailRow(g, [7, 8, 9], 8, 0) == [ElementAt([7, 8, 9], -1), ElementAt([7, 8, 9], 0), ElementAt([7, 8, 9], 1)];
  }

  // A slice of a list whose start may count from the end.
  function SliceFrom(table: seq<nat>, lo: int, hi: nat): seq<nat> {
    var a := if 0 <= lo then lo else if 0 <= |table| + lo then |table| + lo else 0;
    Slice(table, a, hi)
  }

  // The tail blocks of the last boundary alone.
  function FinalTail(g: GroupMeta, table: seq<nat>, h: nat, i: nat): seq<nat>
    requires 0 < h && 0 < g.tokenBlockSize
  {
    TailBefore(g, table, BlockOf(h, g.tokenBlockSize, i) + 1)
  }

  function TailBefore(g: GroupMeta, table: seq<nat>, end: nat): seq<nat> {
    if g.tailTokens == 0 then [] else SliceFrom(table, end - g.tailBlocks, end)
  }

  // The tail of the last boundary alone is the row that ends there.
  ghost predicate FinalTailInside(g: GroupMeta, table: seq<nat>, h: nat, i: nat)
    requires 0 < h && 0 < g.tokenBlockSize
  {
    IsTail(FinalTail(g, table, h, i), g.tailBlocks, table, BlockOf(h, g.tokenBlockSize, i) + 1)
  }

  ghost predicate IsTail(tail: seq<nat>, blocks: nat, table: seq<nat>, end: nat) {
    blocks <= end <= |table| && tail == table[end - blocks..end]
  }

  lemma IsTailIff(g: GroupMeta, table: seq<nat>, end: nat)
    requires 0 < g.tailTokens && end <= |table|
    ensures IsTail(TailBefore(g, table, end), g.tailBlocks, table, end) <==> g.tailBlocks <= end
  {
  }

  // Selecting only the last tail is right for all tables and boundaries under the same
  // condition; where it fails the selection has too few blocks.
  lemma FinalTailsInsideIff(g: GroupMeta, h: nat)
    requires 0 < h && 0 < g.tokenBlockSize && 0 < g.tailTokens
    ensures (forall table: seq<nat>, i: nat :: BlockOf(h, g.tokenBlockSize, i) < |table| ==> FinalTailInside(g, table, h, i)) <==>
            g.tailBlocks <= BlockOf(h, g.tokenBlockSize, 0) + 1
  {
    var first := BlockOf(h, g.tokenBlockSize, 0);
    if g.tailBlocks <= first + 1 {
      forall table: seq<nat>, i: nat | BlockOf(h, g.tokenBlockSize, i) < |table| ensures FinalTailInside(g, table, h, i) {
        FirstBoundaryIsLeast(h, g.tokenBlockSize, i);
        IsTailIff(g, table, BlockOf(h, g.tokenBlockSize, i) + 1);
      }
    } else {
      var table := seq(first + 1, k => k);
      IsTailIff(g, table, first + 1);
      assert BlockOf(h, g.tokenBlockSize, 0) < |table| && !FinalTailInside(g, table, h, 0);
    }
  }

  // Both ways of selecting the tail of a boundary find the same blocks, wherever the tail
  // does not reach before the table.
  lemma FinalTailIsTailRow(g: GroupMeta, table: seq<nat>, h: nat, i: nat)
    requires 0 < h && 0 < g.tokenBlockSize && 0 < g.tailTokens
    requires g.tailBlocks <= BlockOf(h, g.tokenBlockSize, i) + 1 && BlockOf(h, g.tokenBlockSize, i) < |table|
    ensures TailRow(g, table, h, i) == Somes(FinalTail(g, table, h, i))
  {
    TailIsInside(g, table, h, i);
    SameTails(g, table, h, i, BlockOf(h, g.tokenBlockSize, i) + 1);
  }

  lemma SameTails(g: GroupMeta, table: seq<nat>, h: nat, i: nat, end: nat)
    requires 0 < h && 0 < g.tokenBlockSize && 0 < g.tailTokens
    requires end == BlockOf(h, g.tokenBlockSize, i) + 1 && g.tailBlocks <= end <= |table| && TailInside(g, table, h, i)
    ensures TailRow(g, table, h, i) == Somes(FinalTail(g, table, h, i))
  {
    var row, tail := TailRow(g, table, h, i), FinalTail(g, table, h, i);
    assert tail == table[end - g.tailBlocks..end];
    forall k | 0 <= k < |row| ensures row[k] == Somes(tail)[k] {
      assert row[k] == Some(table[end - g.tailBlocks + k]);
    }
  }

  // A tail that reaches before the table can leave nothing at all.
  lemma LongFinalTailIsEmpty()
    ensures FinalTail(GroupMeta(4, 3, 12, true), [5, 6, 7, 8], 8, 0) == []
  {
    assert BlockOf(8, 4, 0) == 1 by { BlocksInIsQuotient(7, 4); }
  }

  // ------------------------------------------------------------ one scheduling step

  function Somes(blocks: seq<nat>): seq<Option<nat>> {
    seq(|blocks|, k requires 0 <= k < |blocks| => Some(blocks[k]))
  }

  // The physical blocks a group contributes for some keys: for windows either a tail at
  // every boundary or only that of the last one.
  function SelectBlocks(g: GroupMeta, table: seq<nat>, h: nat, from: nat, to: nat, blockWise: bool): seq<Option<nat>>
    requires 0 < h && 0 < g.tokenBlockSize && from < to
  {
    if g.isWindow && !blockWise then Somes(FinalTail(g, table, h, to - 1)) else GroupRows(g, table, h, from, to)
  }

  datatype Part = Part(keys: seq<Hash>, start: nat, end: nat, rows: seq<seq<Option<nat>>>)

  ghost predicate Grouped(groups: seq<GroupMeta>, tables: seq<seq<nat>>) {
    |tables| == |groups| && forall g :: 0 <= g < |groups| ==> 0 < groups[g].tokenBlockSize
  }

  function PartOf(ids: seq<Hash>, groups: seq<GroupMeta>, tables: seq<seq<nat>>, h: nat, from: nat, to: nat, blockWise: bool): Part
    requires 0 < h && Grouped(groups, tables) && from < to
  {
    Part(Slice(ids, from, to), from, to, SelectRows(groups, tables, h, from, to, blockWise))
  }

  function SelectRows(groups: seq<GroupMeta>, tables: seq<seq<nat>>, h: nat, from: nat, to: nat, blockWise: bool): seq<seq<Option<nat>>>
    requires 0 < h && Grouped(groups, tables) && from < to
  {
    seq(|groups|, g requires 0 <= g < |groups| => SelectBlocks(groups[g], tables[g], h, from, to, blockWise))
  }

  // ------------------------------------------------------- the blocks of a part

  // The last token of hash block i is in entry b of a table of blocks of t tokens.
  ghost predicate EndsIn(h: nat, t: nat, i: nat, b: nat) {
    b * t <= i * h + h - 1 < (b + 1) * t
  }

  lemma BlockOfEnds(h: nat, t: nat, i: nat, b: nat)
    requires 0 < h && 0 < t
    ensures EndsIn(h, t, i, b) <==> b == BlockOf(h, t, i)
  {
    var last := i * h + h - 1;
    assert last >= 0 by { MulMonotone(0, i, h); }
    BlocksInBounds(last, t);
    Distribute(b, 1, t);
    if EndsIn(h, t, i, b) {
      DivUnique(last, b, t);
      BlocksInIsQuotient(last, t);
    }
  }

  // What a group of a part refers to: for full attention, key by key, the entry of its
  // table that its last token is in; for a window the entries that end there, at every
  // key or at the last one only.
  ghost predicate RightRow(g: GroupMeta, table: seq<nat>, h: nat, start: nat, end: nat, blockWise: bool, row: seq<Option<nat>>)
    requires start < end
  {
    if !g.isWindow then FullRow(g, table, h, start, end, row)
    else if g.tailTokens == 0 then row == []
    else if blockWise then WindowRow(g, table, h, start, end, row)
    else FinalRow(g, table, h, end - 1, row)
  }

  ghost predicate FullRow(g: GroupMeta, table: seq<nat>, h: nat, start: nat, end: nat, row: seq<Option<nat>>)
    requires start < end
  {
    |row| == end - start && forall i: nat, b: nat :: start <= i < end && EndsIn(h, g.tokenBlockSize, i, b) && b < |table| ==>
      row[i - start] == Some(table[b])
  }

  ghost predicate WindowRow(g: GroupMeta, table: seq<nat>, h: nat, start: nat, end: nat, row: seq<Option<nat>>) {
    forall i: nat, b: nat :: start <= i < end && EndsIn(h, g.tokenBlockSize, i, b) && b < |table| && g.tailBlocks <= b + 1 ==>
      TailAt(row, (i - start) * g.tailBlocks, (i - start + 1) * g.tailBlocks, table, b + 1)
  }

  ghost predicate FinalRow(g: GroupMeta, table: seq<nat>, h: nat, last: nat, row: seq<Option<nat>>) {
    forall b: nat :: EndsIn(h, g.tokenBlockSize, last, b) && b < |table| && g.tailBlocks <= b + 1 ==>
      |row| == g.tailBlocks && TailAt(row, 0, g.tailBlocks, table, b + 1)
  }

  // The entries [from..to) of a row are the entries of a table that end before `end`.
  ghost predicate TailAt(row: seq<Option<nat>>, from: int, to: int, table: seq<nat>, end: nat) {
    && 0 <= from <= to <= |row| && to - from <= end <= |table|
    && row[from..to] == Somes(table[end - (to - from)..end])
  }

  // The keys of a part are those of its range, and every group's blocks are theirs.
  ghost predicate RightPart(p: Part, ids: seq<Hash>, groups: seq<GroupMeta>, tables: seq<seq<nat>>, h: nat, blockWise: bool) {
    && p.start < p.end && p.keys == Slice(ids, p.start, p.end)
    && |p.rows| == |groups| == |tables|
    && forall g :: 0 <= g < |groups| ==> RightRow(groups[g], tables[g], h, p.start, p.end, blockWise, p.rows[g])
  }

  lemma KeyRowIsRight(g: GroupMeta, table: seq<nat>, h: nat, i: nat, b: nat)
    requires 0 < h && 0 < g.tokenBlockSize && EndsIn(h, g.tokenBlockSize, i, b) && b < |table|
    ensures !g.isWindow ==> KeyRow(g, table, h, i) == [Some(table[b])]
    ensures g.isWindow && g.tailTokens > 0 && g.tailBlocks <= b + 1 ==>
              KeyRow(g, table, h, i) == Somes(table[b + 1 - g.tailBlocks..b + 1])
  {
    BlockOfEnds(h, g.tokenBlockSize, i, b);
    if g.isWindow && g.tailTokens > 0 && g.tailBlocks <= b + 1 {
      TailIsInside(g, table, h, i);
    }
  }

  lemma GroupRowsAt(g: GroupMeta, table: seq<nat>, h: nat, from: nat, to: nat, i: nat)
    requires 0 < h && 0 < g.tokenBlockSize && from <= i < to
    ensures var w, k := RowWidth(g), i - from;
            && k * w <= (k + 1) * w <= |GroupRows(g, table, h, from, to)|
            && GroupRows(g, table, h, from, to)[k * w..(k + 1) * w] == KeyRow(g, table, h, i)
  {
    RowsOfWidth(g, table, h, from, to, i - from, i - from + 1);
    assert GroupRows(g, table, h, i, i) == [];
    assert GroupRows(g, table, h, i, i + 1) == KeyRow(g, table, h, i);
  }

  lemma FullRowsAreRight(g: GroupMeta, table: seq<nat>, h: nat, from: nat, to: nat)
    requires 0 < h && 0 < g.tokenBlockSize && from < to && !g.isWindow
    ensures RightRow(g, table, h, from, to, true, GroupRows(g, table, h, from, to))
    ensures RightRow(g, table, h, from, to, false, GroupRows(g, table, h, from, to))
  {
    GroupRowsLength(g, table, h, from, to - from);
    forall i: nat, b: nat | from <= i < to && EndsIn(h, g.tokenBlockSize, i, b) && b < |table|
      ensures GroupRows(g, table, h, from, to)[i - from] == Some(table[b])
    {
      GroupRowsAt(g, table, h, from, to, i);
      KeyRowIsRight(g, table, h, i, b);
    }
  }

  lemma WindowRowsAreRight(g: GroupMeta, table: seq<nat>, h: nat, from: nat, to: nat)
    requires 0 < h && 0 < g.tokenBlockSize && from < to && g.isWindow
    ensures RightRow(g, table, h, from, to, true, GroupRows(g, table, h, from, to))
  {
    if g.tailTokens == 0 {
      NoRows(g, table, h, from, to);
    } else {
      forall i: nat, b: nat | from <= i < to && EndsIn(h, g.tokenBlockSize, i, b) && b < |table| && g.tailBlocks <= b + 1
        ensures TailAt(GroupRows(g, table, h, from, to), (i - from) * g.tailBlocks, (i - from + 1) * g.tailBlocks, table, b + 1)
      {
        GroupRowsAt(g, table, h, from, to, i);
        KeyRowIsRight(g, table, h, i, b);
        Distribute(i - from, 1, g.tailBlocks);
      }
    }
  }

  lemma FinalTailIsRight(g: GroupMeta, table: seq<nat>, h: nat, from: nat, to: nat)
    requires 0 < h && 0 < g.tokenBlockSize && from < to && g.isWindow
    ensures RightRow(g, table, h, from, to, false, Somes(FinalTail(g, table, h, to - 1)))
  {
    if g.tailTokens > 0 {
      FinalRowIsRight(g, table, h, to - 1);
    }
  }

  lemma FinalRowIsRight(g: GroupMeta, table: seq<nat>, h: nat, last: nat)
    requires 0 < h && 0 < g.tokenBlockSize && 0 < g.tailTokens
    ensures FinalRow(g, table, h, last, Somes(FinalTail(g, table, h, last)))
  {
    var tail := FinalTail(g, table, h, last);
    forall b: nat | EndsIn(h, g.tokenBlockSize, last, b) && b < |table| && g.tailBlocks <= b + 1
      ensures |tail| == g.tailBlocks && TailAt(Somes(tail), 0, g.tailBlocks, table, b + 1)
    {
      FinalTailEnds(g, table, h, last, b);
      TailIsAt(tail, g.tailBlocks, table, b + 1);
    }
  }

  lemma FinalTailEnds(g: GroupMeta, table: seq<nat>, h: nat, last: nat, b: nat)
    requires 0 < h && 0 < g.tokenBlockSize && 0 < g.tailTokens
    requires EndsIn(h, g.tokenBlockSize, last, b) && b < |table| && g.tailBlocks <= b + 1
    ensures IsTail(FinalTail(g, table, h, last), g.tailBlocks, table, b + 1)
  {
    BlockOfEnds(h, g.tokenBlockSize, last, b);
    IsTailIff(g, table, b + 1);
  }

  lemma TailIsAt(tail: seq<nat>, blocks: nat, table: seq<nat>, end: nat)
    requires IsTail(tail, blocks, table, end)
    ensures |tail| == blocks && TailAt(Somes(tail), 0, blocks, table, end)
  {
  }

  // Every part selected refers to the right blocks.
  lemma PartIsRight(ids: seq<Hash>, groups: seq<GroupMeta>, tables: seq<seq<nat>>, h: nat, from: nat, to: nat, blockWise: bool)
    requires 0 < h && Grouped(groups, tables) && from < to
    ensures RightPart(PartOf(ids, groups, tables, h, from, to, blockWise), ids, groups, tables, h, blockWise)
  {
    forall g | 0 <= g < |groups|
      ensures RightRow(groups[g], tables[g], h, from, to, blockWise, SelectBlocks(groups[g], tables[g], h, from, to, blockWise))
    {
      if !groups[g].isWindow {
        FullRowsAreRight(groups[g], tables[g], h, from, to);
      } else if blockWise {
        WindowRowsAreRight(groups[g], tables[g], h, from, to);
      } else {
        FinalTailIsRight(groups[g], tables[g], h, from, to);
      }
    }
  }

  function Extended(tables: seq<seq<nat>>, more: seq<seq<nat>>): seq<seq<nat>>
    requires |tables| == |more|
  {
    seq(|tables|, g requires 0 <= g < |tables| => tables[g] + more[g])
  }

  class FawaScheduler {
    const groups: seq<GroupMeta>
    const hashBlockSize: nat
    const waDumpBlockWise: bool
    var requestsMeta: map<nat, FawaMeta>

    ghost predicate Valid() reads this {
      && 0 < hashBlockSize && (forall g :: 0 <= g < |groups| ==> 0 < groups[g].tokenBlockSize)
      && forall r :: r in requestsMeta ==> requestsMeta[r].tables == [] || |requestsMeta[r].tables| == |groups|
    }

    constructor (groups: seq<GroupMeta>, hashBlockSize: nat, waDumpBlockWise: bool)
      requires 0 < hashBlockSize && forall g :: 0 <= g < |groups| ==> 0 < groups[g].tokenBlockSize
      ensures Valid() && requestsMeta == map[]
      ensures this.groups == groups && this.hashBlockSize == hashBlockSize && this.waDumpBlockWise == waDumpBlockWise
    {
      this.groups, this.hashBlockSize, this.waDumpBlockWise := groups, hashBlockSize, waDumpBlockWise;
      requestsMeta := map[];
    }

    // The blocks every group contributes for some keys.
    method SelectAll(tables: seq<seq<nat>>, from: nat, to: nat, blockWise: bool) returns (rows: seq<seq<Option<nat>>>)
      requires Valid() && |tables| == |groups| && from < to
      ensures rows == SelectRows(groups, tables, hashBlockSize, from, to, blockWise)
    {
      rows := [];
      ghost var all := SelectRows(groups, tables, hashBlockSize, from, to, blockWise);
      for g := 0 to |groups|
        invariant rows == all[..g]
      {
        rows := rows + [SelectBlocks(groups[g], tables[g], hashBlockSize, from, to, blockWise)];
      }
    }

    // The hit of a request, to be loaded with the full window tail of its end.
    method PlanLoad(m: FawaMeta, tables: seq<seq<nat>>) returns (load: Option<Part>)
      requires Valid() && |tables| == |groups|
      ensures load.Some? ==> RightPart(load.value, m.ids, groups, tables, hashBlockSize, false)
      ensures load == if m.hbmHit < m.totalHit
                      then Some(PartOf(m.ids, groups, tables, hashBlockSize, m.hbmHit, m.totalHit, false)) else None
    {
      if m.hbmHit >= m.totalHit {
        return None;
      }
      PartIsRight(m.ids, groups, tables, hashBlockSize, m.hbmHit, m.totalHit, false);
      var rows := SelectAll(tables, m.hbmHit, m.totalHit, false);
      load := Some(Part(Slice(m.ids, m.hbmHit, m.totalHit), m.hbmHit, m.totalHit, rows));
    }

    // The keys a step completes, from the end of the hit on.
    method PlanDump(m: FawaMeta, tables: seq<seq<nat>>, end: nat) returns (dump: Option<Part>)
      requires Valid() && |tables| == |groups|
      ensures dump.Some? ==> RightPart(dump.value, m.ids, groups, tables, hashBlockSize, waDumpBlockWise)
      ensures var from, to := DumpStart(m, hashBlockSize), BlocksIn(end, hashBlockSize);
              dump == if from < to then Some(PartOf(m.ids, groups, tables, hashBlockSize, from, to, waDumpBlockWise)) else None
    {
      var done, dumpEnd := m.processed / hashBlockSize, end / hashBlockSize;
      BlocksInIsQuotient(m.processed, hashBlockSize);
      BlocksInIsQuotient(end, hashBlockSize);
      var dumpStart := if m.totalHit <= done then done else m.totalHit;
      if dumpStart >= dumpEnd {
        return None;
      }
      PartIsRight(m.ids, groups, tables, hashBlockSize, dumpStart, dumpEnd, waDumpBlockWise);
      var rows := SelectAll(tables, dumpStart, dumpEnd, waDumpBlockWise);
      dump := Some(Part(Slice(m.ids, dumpStart, dumpEnd), dumpStart, dumpEnd, rows));
    }

    // One step of a tracked request: its tables grow, its hit is loaded when asked for,
    // and the blocks it completes are dumped.
    method GenerateDispatchMeta(requestId: nat, newTokens: nat, newBlocks: seq<seq<nat>>, needLoad: bool)
        returns (r: Result<(Option<Part>, Option<Part>)>)
      requires Valid() && requestId in requestsMeta
      modifies this
      ensures Valid()
      ensures r.Err? <==> |newBlocks| != |groups|
      ensures r.Ok? ==>
                var m := old(requestsMeta)[requestId];
                var tables := Extended(if m.tables == [] then seq(|groups|, g => []) else m.tables, newBlocks);
                var from, to := DumpStart(m, hashBlockSize), BlocksIn(ComputedEnd(m, newTokens), hashBlockSize);
                && requestsMeta == old(requestsMeta)[requestId := Stepped(m, newTokens).(tables := tables)]
                && (forall g :: 0 <= g < |groups| ==> tables[g] == (if m.tables == [] then [] else m.tables[g]) + newBlocks[g])
                && (r.value.0.Some? ==> RightPart(r.value.0.value, m.ids, groups, tables, hashBlockSize, false))
                && (r.value.1.Some? ==> RightPart(r.value.1.value, m.ids, groups, tables, hashBlockSize, waDumpBlockWise))
                && r.value.0 == (if needLoad && m.hbmHit < m.totalHit
                                 then Some(PartOf(m.ids, groups, tables, hashBlockSize, m.hbmHit, m.totalHit, false)) else None)
                && r.value.1 == (if from < to
                                 then Some(PartOf(m.ids, groups, tables, hashBlockSize, from, to, waDumpBlockWise)) else None)
    {
      var m := requestsMeta[requestId];
      var tables := if m.tables == [] then seq(|groups|, g => []) else m.tables;
      if |newBlocks| != |tables| {
        requestsMeta := requestsMeta[requestId := m.(tables := tables)];
        return Err("unexpected number of cache groups");
      }
      tables := Extended(tables, newBlocks);
      var load := None;
      if needLoad {
        load := PlanLoad(m, tables);
      }
      var end := if m.numTokens <= m.processed + newTokens then m.numTokens else m.processed + newTokens;
      var dump := PlanDump(m, tables, end);
      requestsMeta := requestsMeta[requestId := m.(processed := end, tables := tables)];
      r := Ok((load, dump));
    }
  }

  // ---------------------------------------------------------- sharing among ranks

  // The first key of a rank's share; the share of rank r ends where that of r + 1 starts.
  function ShareStart(num: nat, rank: nat, tp: nat): nat
    requires 0 < tp
  {
    BlocksIn(num * rank, tp)
  }

  lemma ShareBounds(num: nat, rank: nat, tp: nat)
    requires 0 < tp && rank < tp
    ensures ShareStart(num, rank, tp) <= ShareStart(num, rank + 1, tp) <= num
    ensures num / tp <= ShareStart(num, rank + 1, tp) - ShareStart(num, rank, tp) <= num / tp + 1
  {
    var a, b := num * rank, num * (rank + 1);
    Distribute(rank, 1, num);
    MulMonotone(rank + 1, tp, num);
    BlocksInMonotone(a, b, tp);
    BlocksInMonotone(b, num * tp, tp);
    BlocksInMultiple(num, tp);
    BlocksAdd(a, num, tp);
    BlocksInIsQuotient(num, tp);
  }

  // The part of a dump that one rank makes.
  function RankPart(d: Part, groups: seq<GroupMeta>, rank: nat, tp: nat): Part
    requires 0 < tp && rank < tp && |d.rows| == |groups|
  {
    var a, b := ShareStart(|d.keys|, rank, tp), ShareStart(|d.keys|, rank + 1, tp);
    Part(Slice(d.keys, a, b), d.start + a, d.start + b,
         seq(|groups|, g requires 0 <= g < |groups| => Slice(d.rows[g], a * Scale(groups[g]), b * Scale(groups[g]))))
  }

  // The share of a rank is the dump of a sub-range of keys: the same keys, blocks and
  // window tails that one rank alone would dump for that range.
  lemma RankDumpsSubrange(m: FawaMeta, groups: seq<GroupMeta>, h: nat, from: nat, to: nat, rank: nat, tp: nat)
    requires 0 < h && Grouped(groups, m.tables) && from < to <= |m.ids| && rank < tp
    ensures var a, b := from + ShareStart(to - from, rank, tp), from + ShareStart(to - from, rank + 1, tp);
            && from <= a <= b <= to
            && (a < b ==> RankPart(PartOf(m.ids, groups, m.tables, h, from, to, true), groups, rank, tp) ==
                          PartOf(m.ids, groups, m.tables, h, a, b, true))
  {
    var num := to - from;
    var x, y := ShareStart(num, rank, tp), ShareStart(num, rank + 1, tp);
    ShareBounds(num, rank, tp);
    if x < y {
      var d := PartOf(m.ids, groups, m.tables, h, from, to, true);
      assert |d.keys| == num;
      RowsOfPart(m, groups, h, from, to, x, y);
      var r, s := RankPart(d, groups, rank, tp), PartOf(m.ids, groups, m.tables, h, from + x, from + y, true);
      assert r.keys == s.keys;
      forall g | 0 <= g < |groups| ensures r.rows[g] == s.rows[g] {
        assert r.rows[g] == Slice(d.rows[g], x * Scale(groups[g]), y * Scale(groups[g]));
      }
      assert |r.rows| == |s.rows|;
    }
  }

  lemma RowsOfPart(m: FawaMeta, groups: seq<GroupMeta>, h: nat, from: nat, to: nat, x: nat, y: nat)
    requires 0 < h && Grouped(groups, m.tables) && x < y && from + y <= to
    ensures forall g :: 0 <= g < |groups| ==>
              Slice(PartOf(m.ids, groups, m.tables, h, from, to, true).rows[g], x * Scale(groups[g]), y * Scale(groups[g])) ==
              PartOf(m.ids, groups, m.tables, h, from + x, from + y, true).rows[g]
  {
    forall g | 0 <= g < |groups|
      ensures Slice(GroupRows(groups[g], m.tables[g], h, from, to), x * Scale(groups[g]), y * Scale(groups[g])) ==
              GroupRows(groups[g], m.tables[g], h, from + x, from + y)
    {
      RowsOfKeySlice(groups[g], m.tables[g], h, from, to, x, y);
    }
  }

  // The keys of one request that a rank dumps to the full-attention store.
  function Share(keys: seq<Hash>, rank: nat, tp: nat): seq<Hash>
    requires 0 < tp
  {
    Slice(keys, ShareStart(|keys|, rank, tp), ShareStart(|keys|, rank + 1, tp))
  }

  // The keys of the first n ranks, one rank after the other.
  function RankedKeys(keys: seq<Hash>, tp: nat, n: nat): seq<Hash>
    requires 0 < tp && n <= tp
  {
    if n == 0 then []
    else RankedKeys(keys, tp, n - 1) + Share(keys, n - 1, tp)
  }

  lemma {:induction false} RankedKeysArePrefix(keys: seq<Hash>, tp: nat, n: nat)
    requires 0 < tp && n <= tp
    ensures RankedKeys(keys, tp, n) == Slice(keys, 0, ShareStart(|keys|, n, tp))
  {
    if n == 0 {
      assert |keys| * 0 == 0;
      assert ShareStart(|keys|, 0, tp) == 0;
    } else {
      RankedKeysArePrefix(keys, tp, n - 1);
      ShareBounds(|keys|, n - 1, tp);
      SlicesJoin(keys, 0, ShareStart(|keys|, n - 1, tp), ShareStart(|keys|, n, tp));
    }
  }

  // Together the ranks dump every key once, in order.
  lemma RanksDumpEveryKeyOnce(keys: seq<Hash>, tp: nat)
    requires 0 < tp
    ensures RankedKeys(keys, tp, tp) == keys
  {
    RankedKeysArePrefix(keys, tp, tp);
    BlocksInIsQuotient(|keys| * tp, tp);
    DivMultiple(|keys|, tp);
  }

  // What all ranks dump over a whole schedule.
  function AllDumped(m: FawaMeta, h: nat, steps: seq<nat>, tp: nat): seq<Hash>
    requires 0 < h && 0 < tp
  {
    if steps == [] then []
    else
      var early := steps[..|steps| - 1];
      AllDumped(m, h, early, tp) + RankedKeys(DumpKeys(AfterSteps(m, early), h, steps[|steps| - 1]), tp, tp)
  }

  // Over any schedule and any number of ranks, the ranks dump exactly the keys after the
  // hit, up to the last whole block computed.
  lemma {:induction false} RanksDumpOneRun(m: FawaMeta, h: nat, steps: seq<nat>, tp: nat)
    requires 0 < h && 0 < tp && m.processed <= m.numTokens && BlocksIn(m.processed, h) <= m.totalHit
    ensures AllDumped(m, h, steps, tp) == Slice(m.ids, m.totalHit, BlocksIn(AfterSteps(m, steps).processed, h))
  {
    RanksChangeNothing(m, h, steps, tp);
    DumpsAreOneRun(m, h, steps);
  }

  lemma {:induction false} RanksChangeNothing(m: FawaMeta, h: nat, steps: seq<nat>, tp: nat)
    requires 0 < h && 0 < tp
    ensures AllDumped(m, h, steps, tp) == DumpedKeys(m, h, steps)
  {
    if steps != [] {
      var early := steps[..|steps| - 1];
      RanksChangeNothing(m, h, early, tp);
      RanksDumpEveryKeyOnce(DumpKeys(AfterSteps(m, early), h, steps[|steps| - 1]), tp);
    }
  }

  // ------------------------------------------------------------ saving one batch

  function FaKeys(requests: seq<seq<Hash>>, rank: nat, tp: nat): seq<Hash>
    requires 0 < tp
  {
    if requests == [] then []
    else FaKeys(requests[..|requests| - 1], rank, tp) + Share(requests[|requests| - 1], rank, tp)
  }

  // The requests that have something to dump.
  function Dumping(requests: seq<seq<Hash>>): nat {
    if requests == [] then 0 else Dumping(requests[..|requests| - 1]) + if requests[|requests| - 1] == [] then 0 else 1
  }

  // Either every boundary of a rank's share, or the last one of every tp-th request.
  function WaKeys(requests: seq<seq<Hash>>, blockWise: bool, rank: nat, tp: nat): seq<Hash>
    requires 0 < tp
  {
    if requests == [] then []
    else
      var early, last := requests[..|requests| - 1], requests[|requests| - 1];
      WaKeys(early, blockWise, rank, tp) +
      if blockWise then Share(last, rank, tp)
      else if last != [] && Dumping(early) % tp == rank then [last[|last| - 1]]
      else []
  }

  // What one rank dumps for one request, to both stores.
  method RankKeys(keys: seq<Hash>, blockWise: bool, ring: nat, rank: nat, tp: nat) returns (fa: seq<Hash>, wa: seq<Hash>)
    requires rank < tp && keys != []
    ensures fa == Share(keys, rank, tp)
    ensures wa == if blockWise then Share(keys, rank, tp) else if ring % tp == rank then [keys[|keys| - 1]] else []
  {
    SmallShares(keys, rank, tp);
    if tp > 1 {
      var start, end := |keys| * rank / tp, |keys| * (rank + 1) / tp;
      BlocksInIsQuotient(|keys| * rank, tp);
      BlocksInIsQuotient(|keys| * (rank + 1), tp);
      ShareBounds(|keys|, rank, tp);
      fa := keys[start..end];
      wa := if blockWise then fa else if ring % tp == rank then keys[|keys| - 1..] else [];
    } else {
      fa := keys;
      wa := if blockWise then keys else keys[|keys| - 1..];
    }
  }

  // What one rank dumps for a batch of requests.
  method WaitForSave(requests: seq<seq<Hash>>, blockWise: bool, rank: nat, tp: nat) returns (fa: seq<Hash>, wa: seq<Hash>)
    requires rank < tp
    ensures fa == FaKeys(requests, rank, tp) && wa == WaKeys(requests, blockWise, rank, tp)
  {
    fa, wa := [], [];
    var ring := 0;
    for i := 0 to |requests|
      invariant fa == FaKeys(requests[..i], rank, tp) && wa == WaKeys(requests[..i], blockWise, rank, tp)
      invariant ring == Dumping(requests[..i])
    {
      assert requests[..i + 1][..i] == requests[..i];
      if requests[i] == [] {
        SmallShares(requests[i], rank, tp);
      } else {
        var moreFa, moreWa := RankKeys(requests[i], blockWise, ring, rank, tp);
        fa, wa, ring := fa + moreFa, wa + moreWa, ring + 1;
      }
    }
    assert requests[..|requests|] == requests;
  }

  lemma SmallShares(keys: seq<Hash>, rank: nat, tp: nat)
    requires rank < tp
    ensures keys == [] ==> Share(keys, rank, tp) == []
    ensures tp == 1 ==> Share(keys, rank, tp) == keys
  {
    ShareBounds(|keys|, rank, tp);
    if tp == 1 {
      BlocksInIsQuotient(|keys|, 1);
      assert |keys| * 0 == 0 && |keys| * 1 == |keys|;
    }
  }

  // The share of a rank in the keys of one request.
  lemma ShareIsSlice(keys: seq<Hash>, rank: nat, tp: nat)
    requires rank < tp
    ensures 0 <= |keys| * rank / tp <= |keys| * (rank + 1) / tp <= |keys|
    ensures Share(keys, rank, tp) == keys[|keys| * rank / tp..|keys| * (rank + 1) / tp]
  {
    ShareBounds(|keys|, rank, tp);
    BlocksInIsQuotient(|keys| * rank, tp);
    BlocksInIsQuotient(|keys| * (rank + 1), tp);
  }

  function AllKeys(requests: seq<seq<Hash>>): seq<Hash> {
    if requests == [] then [] else AllKeys(requests[..|requests| - 1]) + requests[|requests| - 1]
  }

  function LastKeys(requests: seq<seq<Hash>>): seq<Hash> {
    if requests == [] then []
    else
      var last := requests[|requests| - 1];
      LastKeys(requests[..|requests| - 1]) + if last == [] then [] else [last[|last| - 1]]
  }

  function Sum(lists: seq<seq<Hash>>): multiset<Hash> {
    if lists == [] then multiset{} else Sum(lists[..|lists| - 1]) + multiset(lists[|lists| - 1])
  }

  lemma {:induction false} SumAdds(x: seq<seq<Hash>>, y: seq<seq<Hash>>, z: seq<seq<Hash>>)
    requires |x| == |y| == |z| && forall i :: 0 <= i < |z| ==> z[i] == x[i] + y[i]
    ensures Sum(z) == Sum(x) + Sum(y)
  {
    var n := |z|;
    if n > 0 {
      SumAdds(x[..n - 1], y[..n - 1], z[..n - 1]);
      assert z[n - 1] == x[n - 1] + y[n - 1];
    }
  }

  // What every one of the first n ranks dumps.
  function FaByRank(requests: seq<seq<Hash>>, tp: nat, n: nat): seq<seq<Hash>>
    requires 0 < tp
  {
    seq(n, r requires 0 <= r < n => FaKeys(requests, r, tp))
  }

  function WaByRank(requests: seq<seq<Hash>>, blockWise: bool, tp: nat, n: nat): seq<seq<Hash>>
    requires 0 < tp
  {
    seq(n, r requires 0 <= r < n => WaKeys(requests, blockWise, r, tp))
  }

  function SharesByRank(keys: seq<Hash>, tp: nat, n: nat): seq<seq<Hash>>
    requires 0 < tp
  {
    seq(n, r requires 0 <= r < n => Share(keys, r, tp))
  }

  lemma {:induction false} SharesAddUp(keys: seq<Hash>, tp: nat, n: nat)
    requires 0 < tp && n <= tp
    ensures Sum(SharesByRank(keys, tp, n)) == multiset(RankedKeys(keys, tp, n))
  {
    if n > 0 {
      SharesAddUp(keys, tp, n - 1);
      assert SharesByRank(keys, tp, n)[..n - 1] == SharesByRank(keys, tp, n - 1);
    }
  }

  lemma {:induction false} SumOfEmpties(lists: seq<seq<Hash>>)
    requires forall i :: 0 <= i < |lists| ==> lists[i] == []
    ensures Sum(lists) == multiset{}
  {
    if lists != [] {
      SumOfEmpties(lists[..|lists| - 1]);
    }
  }

  // All ranks together dump every key of a batch exactly once to the full-attention
  // store, and to the window store when it is dumped block by block.
  lemma {:induction false} RanksDumpBatchOnce(requests: seq<seq<Hash>>, tp: nat)
    requires 0 < tp
    ensures Sum(FaByRank(requests, tp, tp)) == multiset(AllKeys(requests)) == Sum(WaByRank(requests, true, tp, tp))
  {
    forall r | 0 <= r < tp ensures WaByRank(requests, true, tp, tp)[r] == FaByRank(requests, tp, tp)[r] {
      WindowShare(requests, r, tp);
    }
    assert WaByRank(requests, true, tp, tp) == FaByRank(requests, tp, tp);
    if requests == [] {
      SumOfEmpties(FaByRank(requests, tp, tp));
    } else {
      var early, last := requests[..|requests| - 1], requests[|requests| - 1];
      RanksDumpBatchOnce(early, tp);
      SumAdds(FaByRank(early, tp, tp), SharesByRank(last, tp, tp), FaByRank(requests, tp, tp));
      SharesAddUp(last, tp, tp);
      RanksDumpEveryKeyOnce(last, tp);
    }
  }

  lemma {:induction false} WindowShare(requests: seq<seq<Hash>>, rank: nat, tp: nat)
    requires 0 < tp
    ensures WaKeys(requests, true, rank, tp) == FaKeys(requests, rank, tp)
  {
    if requests != [] {
      WindowShare(requests[..|requests| - 1], rank, tp);
    }
  }

  // The k-th of the keys that fall to a rank when they are dealt out in turn.
  function InTurn(rank: nat, k: nat, tp: nat): nat { rank + k * tp }

  lemma NextTurn(rank: nat, n: nat, tp: nat, d: nat)
    requires rank < tp && d <= InTurn(rank, n, tp) && (n > 0 ==> InTurn(rank, n - 1, tp) < d)
    ensures d % tp == rank <==> d == InTurn(rank, n, tp)
    ensures InTurn(rank, n + 1, tp) == InTurn(rank, n, tp) + tp
  {
    Distribute(n, 1, tp);
    if d == InTurn(rank, n, tp) {
      DivUnique(d, n, tp);
      DivBounds(d, tp);
    } else if d % tp == rank {
      DivBounds(d, tp);
      var q := d / tp;
      if q < n { MulMonotone(q, n - 1, tp); } else { MulMonotone(n, q, tp); }
    }
  }

  // Not block by block, the last boundaries of the dumping requests are dealt out to the
  // ranks in turn.
  lemma {:induction false} LastBoundariesInTurn(requests: seq<seq<Hash>>, rank: nat, tp: nat)
    requires rank < tp
    ensures |LastKeys(requests)| == Dumping(requests)
    ensures var wa, last := WaKeys(requests, false, rank, tp), LastKeys(requests);
            && |last| <= InTurn(rank, |wa|, tp) && (|wa| > 0 ==> InTurn(rank, |wa| - 1, tp) < |last|)
            && forall k :: 0 <= k < |wa| ==> InTurn(rank, k, tp) < |last| && wa[k] == last[InTurn(rank, k, tp)]
  {
    if requests != [] {
      var early, last := requests[..|requests| - 1], requests[|requests| - 1];
      LastBoundariesInTurn(early, rank, tp);
      var wa, keys := WaKeys(early, false, rank, tp), LastKeys(early);
      NextTurn(rank, |wa|, tp, |keys|);
      if last != [] {
        assert LastKeys(requests) == keys + [last[|last| - 1]];
        assert WaKeys(requests, false, rank, tp) == if |keys| % tp == rank then wa + [last[|last| - 1]] else wa;
      }
    }
  }

  // The window row of the last request, given to one rank.
  function LastOfBatch(requests: seq<seq<Hash>>, rank: nat, tp: nat): seq<Hash>
    requires 0 < tp && requests != []
  {
    var early, last := requests[..|requests| - 1], requests[|requests| - 1];
    if last != [] && Dumping(early) % tp == rank then [last[|last| - 1]] else []
  }

  lemma {:induction false} OneRankServes(lists: seq<seq<Hash>>, x: seq<Hash>, rank: nat)
    requires forall r :: 0 <= r < |lists| ==> lists[r] == if r == rank then x else []
    ensures Sum(lists) == if rank < |lists| then multiset(x) else multiset{}
  {
    if lists != [] {
      OneRankServes(lists[..|lists| - 1], x, rank);
    }
  }

  // Otherwise the last boundary of every dumping request is dumped by exactly one rank.
  lemma {:induction false} RanksDumpLastBoundariesOnce(requests: seq<seq<Hash>>, tp: nat)
    requires 0 < tp
    ensures Sum(WaByRank(requests, false, tp, tp)) == multiset(LastKeys(requests))
  {
    if requests == [] {
      SumOfEmpties(WaByRank(requests, false, tp, tp));
    } else {
      var early, last := requests[..|requests| - 1], requests[|requests| - 1];
      RanksDumpLastBoundariesOnce(early, tp);
      var row := seq(tp, r requires 0 <= r < tp => LastOfBatch(requests, r, tp));
      SumAdds(WaByRank(early, false, tp, tp), row, WaByRank(requests, false, tp, tp));
      LastIsServed(requests, tp, row);
    }
  }

  lemma LastIsServed(requests: seq<seq<Hash>>, tp: nat, row: seq<seq<Hash>>)
    requires 0 < tp && requests != [] && |row| == tp && forall r :: 0 <= r < tp ==> row[r] == LastOfBatch(requests, r, tp)
    ensures var last := requests[|requests| - 1]; Sum(row) == if last == [] then multiset{} else multiset{last[|last| - 1]}
  {
    var last := requests[|requests| - 1];
    OneRankServes(row, if last == [] then [] else [last[|last| - 1]], Dumping(requests[..|requests| - 1]) % tp);
  }
}
