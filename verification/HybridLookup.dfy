/**
 Group-aware hashing and the two-stage lookup of the hybrid connector: full-attention
 groups need every block of a prefix, state groups one state at its end.
 */
module HybridLookup {
  import opened Wrappers
  import opened Prefixes
  import opened Arithmetic
  import opened HashChain

  datatype GroupInfo = GroupInfo(blockSize: nat, seed: Hash, isMambaAlign: bool)

  // The groups in order of their ids, each with a seed of its own derived from the
  // base seed, and the common multiple of their block sizes at which a request may
  // resume.
  datatype Groups = Groups(all: seq<GroupInfo>, base: Hash, lcmBlockSize: nat) {
    ghost predicate Valid() {
      && 0 < lcmBlockSize
      && (forall g :: 0 <= g < |all| ==> all[g].seed == GroupSeed(0, base, g))
      && (forall g :: 0 <= g < |all| ==> 0 < all[g].blockSize && lcmBlockSize % all[g].blockSize == 0)
      && exists g :: 0 <= g < |all| && !all[g].isMambaAlign
    }

    // The first full-attention group.
    function Primary(from: nat := 0): (g: nat)
      requires from < |all| && exists g :: from <= g < |all| && !all[g].isMambaAlign
      ensures from <= g < |all| && !all[g].isMambaAlign
      ensures forall h :: from <= h < g ==> all[h].isMambaAlign
      decreases |all| - from
    {
      if !all[from].isMambaAlign then from else Primary(from + 1)
    }
  }

  // Per-block ids of one group; state groups only get placeholders.
  function GroupIds(group: GroupInfo, tokens: seq<Token>): seq<Hash>
    requires 0 < group.blockSize
  {
    if group.isMambaAlign then seq(BlocksIn(|tokens|, group.blockSize), i => Blank)
    else Chain(0, group.blockSize, tokens, group.seed)
  }

  // The key of a state group at a boundary, derived from the primary group's prefix id.
  function StateHash(gs: Groups, g: nat, seqLen: nat, ids: seq<seq<Hash>>): Option<Hash>
    requires gs.Valid() && g < |gs.all| && |ids| == |gs.all|
  {
    var primary := gs.Primary();
    var blocks := seqLen / gs.all[primary].blockSize;
    if seqLen == 0 || seqLen % gs.lcmBlockSize != 0 then None
    else if blocks == 0 || |ids[primary]| < blocks || ids[primary][blocks - 1] == Blank then None
    else Some(GroupState(0, gs.all[g].seed, seqLen, ids[primary][blocks - 1]))
  }

  // ------------------------------------------------------------ what is wanted

  // Group g holds every block of the extension by e tokens.
  ghost predicate BlocksPresent(blockSize: nat, ids: seq<Hash>, present: set<Hash>, computed: nat, e: nat)
    requires 0 < blockSize
  {
    && (computed + e) / blockSize <= |ids|
    && forall i :: computed / blockSize <= i < (computed + e) / blockSize ==> ids[i] in present
  }

  ghost predicate PrefixPresent(gs: Groups, ids: seq<seq<Hash>>, present: set<Hash>, computed: nat, e: nat)
    requires gs.Valid() && |ids| == |gs.all|
  {
    forall g :: 0 <= g < |gs.all| && !gs.all[g].isMambaAlign ==>
      BlocksPresent(gs.all[g].blockSize, ids[g], present, computed, e)
  }

  ghost predicate StatesPresent(gs: Groups, ids: seq<seq<Hash>>, present: set<Hash>, pos: nat)
    requires gs.Valid() && |ids| == |gs.all|
  {
    forall g :: 0 <= g < |gs.all| && gs.all[g].isMambaAlign ==>
      StateHash(gs, g, pos, ids).Some? && StateHash(gs, g, pos, ids).value in present
  }

  // An extension of e tokens can be resumed from the store.
  ghost predicate Resumable(gs: Groups, ids: seq<seq<Hash>>, present: set<Hash>, computed: nat, e: nat)
    requires gs.Valid() && |ids| == |gs.all|
  {
    && e % gs.lcmBlockSize == 0
    && PrefixPresent(gs, ids, present, computed, e)
    && StatesPresent(gs, ids, present, computed + e)
  }

  ghost predicate Hashed(gs: Groups, ids: seq<seq<Hash>>) {
    && |ids| == |gs.all|
    && forall g :: 0 <= g < |ids| && !gs.all[g].isMambaAlign ==> Blank !in ids[g]
  }

  // ---------------------------------------------------------------- arithmetic

  lemma ModMeansMultiple(a: nat, k: nat) returns (q: nat)
    requires 0 < k && a % k == 0
    ensures a == q * k && q == a / k
  {
    q := a / k;
    DivBounds(a, k);
  }

  lemma MultipleOfMultiple(a: nat, l: nat, k: nat)
    requires 0 < k && 0 < l && a % l == 0 && l % k == 0
    ensures a % k == 0
  {
    var p := ModMeansMultiple(a, l);
    var q := ModMeansMultiple(l, k);
    assert a == p * (q * k) == (p * q) * k;
    DivMultiple(p * q, k);
  }

  lemma SumOfMultiples(a: nat, b: nat, k: nat)
    requires 0 < k && a % k == 0 && b % k == 0
    ensures (a + b) % k == 0 && (a + b) / k == a / k + b / k
  {
    var p := ModMeansMultiple(a, k);
    var q := ModMeansMultiple(b, k);
    assert a + b == (p + q) * k;
    DivMultiple(p + q, k);
  }

  // For aligned extensions a group's blocks are present up to its own hit length.
  lemma GroupReach(blockSize: nat, ids: seq<Hash>, present: set<Hash>, computed: nat, e: nat)
    requires 0 < blockSize && computed % blockSize == 0 && e % blockSize == 0
    ensures var from := computed / blockSize;
            var hits := if from <= |ids| then LongestIn(ids[from..], present) else 0;
            from <= |ids| ==> (BlocksPresent(blockSize, ids, present, computed, e) <==> e <= hits * blockSize)
    ensures computed / blockSize > |ids| ==> !BlocksPresent(blockSize, ids, present, computed, e)
  {
    var from, q := computed / blockSize, e / blockSize;
    SumOfMultiples(computed, e, blockSize);
    if from <= |ids| {
      var hits := LongestIn(ids[from..], present);
      var _ := ModMeansMultiple(e, blockSize);
      assert forall i :: from <= i < from + hits ==> ids[from..][i - from] == ids[i];
      if q <= hits {
        MulMonotone(q, hits, blockSize);
        forall i | from <= i < from + q ensures ids[i] in present {
          assert ids[from..][i - from] in present;
        }
      } else {
        MulMonotone(hits + 1, q, blockSize);
        if from + q <= |ids| {
          assert ids[from..][hits] == ids[from + hits];
        }
      }
    }
  }

  // ------------------------------------------------------------------- stage 1

  ghost predicate PresentBelow(gs: Groups, ids: seq<seq<Hash>>, present: set<Hash>, computed: nat, e: nat, n: nat)
    requires gs.Valid() && |ids| == |gs.all| && n <= |gs.all|
  {
    forall g :: 0 <= g < n && !gs.all[g].isMambaAlign ==> BlocksPresent(gs.all[g].blockSize, ids[g], present, computed, e)
  }

  // What one full-attention group contributes; a failed lookup contributes nothing.
  method Candidate(group: GroupInfo, ids: seq<Hash>, present: set<Hash>, computed: nat, fails: bool) returns (c: nat)
    requires 0 < group.blockSize && computed % group.blockSize == 0
    ensures forall e: nat :: 0 < e <= c && e % group.blockSize == 0 ==>
              BlocksPresent(group.blockSize, ids, present, computed, e)
    ensures !fails ==> forall e: nat :: c < e && e % group.blockSize == 0 ==>
              !BlocksPresent(group.blockSize, ids, present, computed, e)
    ensures fails ==> c == 0
  {
    var from := computed / group.blockSize;
    forall e: nat | e % group.blockSize == 0
      ensures from <= |ids| ==> (BlocksPresent(group.blockSize, ids, present, computed, e) <==>
                                 e <= LongestIn(ids[from..], present) * group.blockSize)
      ensures from > |ids| ==> !BlocksPresent(group.blockSize, ids, present, computed, e)
    {
      GroupReach(group.blockSize, ids, present, computed, e);
    }
    if |ids| <= from || fails {
      return 0;
    }
    c := LongestIn(ids[from..], present) * group.blockSize;
  }

  // Every aligned extension up to the limit is present in the groups below n.
  ghost predicate FitsBelow(gs: Groups, ids: seq<seq<Hash>>, present: set<Hash>, computed: nat, limit: nat, n: nat)
    requires gs.Valid() && |ids| == |gs.all| && n <= |gs.all|
  {
    forall e: nat :: 0 < e <= limit && e % gs.lcmBlockSize == 0 ==> PresentBelow(gs, ids, present, computed, e, n)
  }

  // No aligned extension over the limit is.
  ghost predicate TightBelow(gs: Groups, ids: seq<seq<Hash>>, present: set<Hash>, computed: nat, limit: nat, n: nat)
    requires gs.Valid() && |ids| == |gs.all| && n <= |gs.all|
  {
    forall e: nat :: limit < e && e % gs.lcmBlockSize == 0 ==> !PresentBelow(gs, ids, present, computed, e, n)
  }

  // The smallest candidate of the full-attention groups.
  method FirstStage(gs: Groups, computed: nat, ids: seq<seq<Hash>>, present: set<Hash>, prefixFails: set<nat>)
      returns (least: nat)
    requires gs.Valid() && |ids| == |gs.all| && computed % gs.lcmBlockSize == 0
    ensures FitsBelow(gs, ids, present, computed, least, |gs.all|)
    ensures prefixFails == {} ==> TightBelow(gs, ids, present, computed, least, |gs.all|)
    ensures (exists g :: g in prefixFails && g < |gs.all| && !gs.all[g].isMambaAlign) ==> least == 0
  {
    var found: Option<nat> := None;
    for g := 0 to |gs.all|
      invariant found.None? ==> forall i :: 0 <= i < g ==> gs.all[i].isMambaAlign
      invariant found.Some? ==> FitsBelow(gs, ids, present, computed, found.value, g)
      invariant found.Some? && (exists i :: i in prefixFails && i < g && !gs.all[i].isMambaAlign) ==> found.value == 0
      invariant found.Some? && prefixFails == {} ==> TightBelow(gs, ids, present, computed, found.value, g)
    {
      if gs.all[g].isMambaAlign {
        SkipState(gs, ids, present, computed, g);
      } else {
        MultipleOfMultiple(computed, gs.lcmBlockSize, gs.all[g].blockSize);
        var c := Candidate(gs.all[g], ids[g], present, computed, g in prefixFails);
        var next := if found.None? || c < found.value then Some(c) else found;
        JoinCandidate(gs, ids, present, computed, g, found, c, next.value);
        found := next;
      }
    }
    least := found.value;
  }

  lemma SkipState(gs: Groups, ids: seq<seq<Hash>>, present: set<Hash>, computed: nat, g: nat)
    requires gs.Valid() && |ids| == |gs.all| && g < |gs.all| && gs.all[g].isMambaAlign
    ensures forall limit: nat :: FitsBelow(gs, ids, present, computed, limit, g) ==>
              FitsBelow(gs, ids, present, computed, limit, g + 1)
    ensures forall limit: nat :: TightBelow(gs, ids, present, computed, limit, g) ==>
              TightBelow(gs, ids, present, computed, limit, g + 1)
  {
    var next := g + 1;
    assert forall e: nat :: PresentBelow(gs, ids, present, computed, e, next) <==> PresentBelow(gs, ids, present, computed, e, g);
    forall limit: nat
      ensures FitsBelow(gs, ids, present, computed, limit, g) ==> FitsBelow(gs, ids, present, computed, limit, next)
      ensures TightBelow(gs, ids, present, computed, limit, g) ==> TightBelow(gs, ids, present, computed, limit, next)
    {
    }
  }

  lemma JoinCandidate(gs: Groups, ids: seq<seq<Hash>>, present: set<Hash>, computed: nat, g: nat,
                      found: Option<nat>, c: nat, least: nat)
    requires gs.Valid() && |ids| == |gs.all| && g < |gs.all| && !gs.all[g].isMambaAlign
    requires found.None? ==> forall i :: 0 <= i < g ==> gs.all[i].isMambaAlign
    requires found.Some? ==> FitsBelow(gs, ids, present, computed, found.value, g)
    requires forall e: nat :: 0 < e <= c && e % gs.all[g].blockSize == 0 ==>
               BlocksPresent(gs.all[g].blockSize, ids[g], present, computed, e)
    requires least == if found.None? || c < found.value then c else found.value
    ensures FitsBelow(gs, ids, present, computed, least, g + 1)
    ensures (found.Some? ==> TightBelow(gs, ids, present, computed, found.value, g)) &&
            (forall e: nat :: c < e && e % gs.all[g].blockSize == 0 ==>
               !BlocksPresent(gs.all[g].blockSize, ids[g], present, computed, e)) ==>
            TightBelow(gs, ids, present, computed, least, g + 1)
  {
    forall e: nat | e % gs.lcmBlockSize == 0
      ensures e % gs.all[g].blockSize == 0
      ensures PresentBelow(gs, ids, present, computed, e, g + 1) <==>
              PresentBelow(gs, ids, present, computed, e, g) &&
              BlocksPresent(gs.all[g].blockSize, ids[g], present, computed, e)
    {
      MultipleOfMultiple(e, gs.lcmBlockSize, gs.all[g].blockSize);
    }
  }

  // ------------------------------------------------------------------- stage 2

  // The keys of all state groups at a boundary; a missing key reads as blank.
  function StateKeys(gs: Groups, pos: nat, ids: seq<seq<Hash>>, n: nat): seq<Hash>
    requires gs.Valid() && |ids| == |gs.all| && n <= |gs.all|
  {
    if n == 0 then []
    else
      var before := StateKeys(gs, pos, ids, n - 1);
      if !gs.all[n - 1].isMambaAlign then before
      else before + [match StateHash(gs, n - 1, pos, ids) case Some(h) => h case None => Blank]
  }

  lemma {:induction false} StateKeysMeaning(gs: Groups, pos: nat, ids: seq<seq<Hash>>, present: set<Hash>, n: nat)
    requires gs.Valid() && |ids| == |gs.all| && n <= |gs.all|
    requires forall g :: 0 <= g < n && gs.all[g].isMambaAlign ==> StateHash(gs, g, pos, ids).Some?
    ensures (forall k :: k in StateKeys(gs, pos, ids, n) ==> k in present) <==>
            (forall g :: 0 <= g < n && gs.all[g].isMambaAlign ==> StateHash(gs, g, pos, ids).value in present)
  {
    if n > 0 {
      StateKeysMeaning(gs, pos, ids, present, n - 1);
    }
  }

  // No boundary after `best` blocks, up to `limit` blocks, has all its states.
  ghost predicate NoStatesAfter(gs: Groups, ids: seq<seq<Hash>>, present: set<Hash>, computed: nat, best: nat, limit: nat)
    requires gs.Valid() && |ids| == |gs.all|
  {
    forall b: nat :: best < b <= limit ==> !StatesPresent(gs, ids, present, computed + b * gs.lcmBlockSize)
  }

  // The prefix of every extension by at most `limit` blocks is present.
  ghost predicate FitsBlocks(gs: Groups, ids: seq<seq<Hash>>, present: set<Hash>, computed: nat, limit: nat)
    requires gs.Valid() && |ids| == |gs.all|
  {
    forall b: nat :: 0 < b <= limit ==> PrefixPresent(gs, ids, present, computed, b * gs.lcmBlockSize)
  }

  // One lookup of all state keys at a boundary answers whether its states are present.
  lemma BoundaryAnswer(gs: Groups, ids: seq<seq<Hash>>, present: set<Hash>, computed: nat, b: nat, limit: nat)
    requires gs.Valid() && Hashed(gs, ids) && computed % gs.lcmBlockSize == 0
    requires 0 < b <= limit && FitsBlocks(gs, ids, present, computed, limit)
    ensures var pos := computed + b * gs.lcmBlockSize;
            (forall k :: k in StateKeys(gs, pos, ids, |gs.all|) ==> k in present) <==>
            StatesPresent(gs, ids, present, pos)
  {
    DivMultiple(b, gs.lcmBlockSize);
    MulMonotone(1, b, gs.lcmBlockSize);
    var e := b * gs.lcmBlockSize;
    assert PrefixPresent(gs, ids, present, computed, e);
    BoundaryAnswerAt(gs, ids, present, computed, e);
  }

  lemma BoundaryAnswerAt(gs: Groups, ids: seq<seq<Hash>>, present: set<Hash>, computed: nat, e: nat)
    requires gs.Valid() && Hashed(gs, ids)
    requires 0 < e && computed % gs.lcmBlockSize == 0 && e % gs.lcmBlockSize == 0
    requires PrefixPresent(gs, ids, present, computed, e)
    ensures var pos := computed + e;
            (forall k :: k in StateKeys(gs, pos, ids, |gs.all|) ==> k in present) <==>
            StatesPresent(gs, ids, present, pos)
  {
    StateHashDefined(gs, ids, present, computed, e);
    StateKeysMeaning(gs, computed + e, ids, present, |gs.all|);
  }

  // Within the extension found by stage 1 no state key is missing.
  lemma StateHashDefined(gs: Groups, ids: seq<seq<Hash>>, present: set<Hash>, computed: nat, e: nat)
    requires gs.Valid() && Hashed(gs, ids)
    requires 0 < e && computed % gs.lcmBlockSize == 0 && e % gs.lcmBlockSize == 0
    requires PrefixPresent(gs, ids, present, computed, e)
    ensures var pos := computed + e; forall g :: 0 <= g < |gs.all| ==> StateHash(gs, g, pos, ids).Some?
  {
    var p := gs.Primary();
    var bs, pos := gs.all[p].blockSize, computed + e;
    SumOfMultiples(computed, e, gs.lcmBlockSize);
    MultipleOfMultiple(pos, gs.lcmBlockSize, bs);
    var q := ModMeansMultiple(pos, bs);
    assert BlocksPresent(bs, ids[p], present, computed, e);
    assert ids[p][q - 1] in ids[p];
  }

  // Scans the boundaries backward from the stage 1 extension; None when a lookup fails.
  method SecondStage(gs: Groups, computed: nat, ids: seq<seq<Hash>>, present: set<Hash>, blocks: nat, stateFailsAt: set<nat>)
      returns (best: Option<nat>)
    requires gs.Valid() && Hashed(gs, ids) && computed % gs.lcmBlockSize == 0
    requires FitsBlocks(gs, ids, present, computed, blocks)
    ensures best.Some? ==> best.value <= blocks
    ensures best.Some? && best.value > 0 ==>
              StatesPresent(gs, ids, present, computed + best.value * gs.lcmBlockSize)
    ensures best.Some? ==> NoStatesAfter(gs, ids, present, computed, best.value, blocks)
    ensures stateFailsAt == {} ==> best.Some?
  {
    var b: nat := blocks;
    while b > 0
      invariant 0 <= b <= blocks
      invariant NoStatesAfter(gs, ids, present, computed, b, blocks)
    {
      var pos := computed + b * gs.lcmBlockSize;
      if pos in stateFailsAt {
        return None;
      }
      BoundaryAnswer(gs, ids, present, computed, b, blocks);
      var keys := StateKeys(gs, pos, ids, |gs.all|);
      if forall k :: k in keys ==> k in present {
        return Some(b);
      }
      b := b - 1;
    }
    return Some(0);
  }

  // The defined state keys of one boundary.
  function DefinedStateKeys(gs: Groups, pos: nat, ids: seq<seq<Hash>>, n: nat): seq<Hash>
    requires gs.Valid() && |ids| == |gs.all| && n <= |gs.all|
  {
    if n == 0 then []
    else
      var before := DefinedStateKeys(gs, pos, ids, n - 1);
      if gs.all[n - 1].isMambaAlign && StateHash(gs, n - 1, pos, ids).Some?
      then before + [StateHash(gs, n - 1, pos, ids).value] else before
  }

  // The state keys of the first n boundaries, counted from the start of the request.
  function PrefetchKeys(gs: Groups, ids: seq<seq<Hash>>, n: nat): seq<Hash>
    requires gs.Valid() && |ids| == |gs.all|
  {
    if n == 0 then []
    else PrefetchKeys(gs, ids, n - 1) + DefinedStateKeys(gs, n * gs.lcmBlockSize, ids, |gs.all|)
  }

  // The key of a state group at the b-th boundary.
  ghost predicate StateKeyAt(gs: Groups, ids: seq<seq<Hash>>, b: nat, g: nat, key: Hash)
    requires gs.Valid() && |ids| == |gs.all| && g < |gs.all|
  {
    gs.all[g].isMambaAlign && StateHash(gs, g, b * gs.lcmBlockSize, ids) == Some(key)
  }

  lemma {:induction false} DefinedKeysMeaning(gs: Groups, b: nat, ids: seq<seq<Hash>>, n: nat, key: Hash)
    requires gs.Valid() && |ids| == |gs.all| && n <= |gs.all|
    ensures key in DefinedStateKeys(gs, b * gs.lcmBlockSize, ids, n) <==> exists g :: 0 <= g < n && StateKeyAt(gs, ids, b, g, key)
  {
    if n > 0 {
      DefinedKeysMeaning(gs, b, ids, n - 1, key);
      assert StateKeyAt(gs, ids, b, n - 1, key) <==>
             gs.all[n - 1].isMambaAlign && StateHash(gs, n - 1, b * gs.lcmBlockSize, ids) == Some(key);
    }
  }

  ghost predicate PrefetchedAt(gs: Groups, ids: seq<seq<Hash>>, b: nat, key: Hash)
    requires gs.Valid() && |ids| == |gs.all|
  {
    exists g :: 0 <= g < |gs.all| && StateKeyAt(gs, ids, b, g, key)
  }

  // The keys to prefetch are exactly the state keys of the first n boundaries.
  lemma {:induction false} PrefetchMeaning(gs: Groups, ids: seq<seq<Hash>>, n: nat, key: Hash)
    requires gs.Valid() && |ids| == |gs.all|
    ensures key in PrefetchKeys(gs, ids, n) <==> exists b :: 1 <= b <= n && PrefetchedAt(gs, ids, b, key)
  {
    if n > 0 {
      PrefetchMeaning(gs, ids, n - 1, key);
      DefinedKeysMeaning(gs, n, ids, |gs.all|, key);
      assert PrefetchedAt(gs, ids, n, key) <==> key in DefinedStateKeys(gs, n * gs.lcmBlockSize, ids, |gs.all|);
    }
  }

  // Exactly the state keys of the first n boundaries are prefetched.
  ghost predicate Prefetches(keys: seq<Hash>, gs: Groups, ids: seq<seq<Hash>>, n: nat)
    requires gs.Valid() && |ids| == |gs.all|
  {
    forall key :: key in keys <==> exists b :: 1 <= b <= n && PrefetchedAt(gs, ids, b, key)
  }

  lemma PrefetchIsComplete(gs: Groups, ids: seq<seq<Hash>>, n: nat)
    requires gs.Valid() && |ids| == |gs.all|
    ensures Prefetches(if n == 0 || NoStates(gs) then [] else PrefetchKeys(gs, ids, n), gs, ids, n)
  {
    forall key ensures key in PrefetchKeys(gs, ids, n) <==> exists b :: 1 <= b <= n && PrefetchedAt(gs, ids, b, key) {
      PrefetchMeaning(gs, ids, n, key);
    }
  }

  datatype Hit = Hit(tokens: nat, lcmBlocks: nat, prefetch: seq<Hash>)

  // An extension by some common blocks, none or resumable.
  ghost predicate NoneOrResumable(gs: Groups, ids: seq<seq<Hash>>, present: set<Hash>, computed: nat, blocks: nat)
    requires gs.Valid() && |ids| == |gs.all|
  {
    var e := blocks * gs.lcmBlockSize;
    e > 0 ==> Resumable(gs, ids, present, computed, e)
  }

  ghost predicate NothingLonger(gs: Groups, ids: seq<seq<Hash>>, present: set<Hash>, computed: nat, blocks: nat)
    requires gs.Valid() && |ids| == |gs.all|
  {
    var longest := blocks * gs.lcmBlockSize;
    forall e: nat :: e > longest ==> !Resumable(gs, ids, present, computed, e)
  }

  ghost predicate FullGroupFails(gs: Groups, prefixFails: set<nat>) {
    exists g :: g in prefixFails && g < |gs.all| && !gs.all[g].isMambaAlign
  }

  // The two stages, in common blocks; nothing when a lookup of the second stage fails.
  method BestBlocks(gs: Groups, computed: nat, ids: seq<seq<Hash>>, present: set<Hash>,
                    prefixFails: set<nat>, stateFailsAt: set<nat>)
      returns (best: nat)
    requires gs.Valid() && Hashed(gs, ids) && computed % gs.lcmBlockSize == 0
    ensures FullGroupFails(gs, prefixFails) ==> best == 0
    ensures NoneOrResumable(gs, ids, present, computed, best)
    ensures prefixFails == {} && stateFailsAt == {} ==> NothingLonger(gs, ids, present, computed, best)
  {
    var least := FirstStage(gs, computed, ids, present, prefixFails);
    var blocks := least / gs.lcmBlockSize;
    StageOneBlocks(gs, ids, present, computed, least, blocks);
    if NoStates(gs) {
      best := blocks;
    } else {
      var found := SecondStage(gs, computed, ids, present, blocks, stateFailsAt);
      best := if found.None? then 0 else found.value;
    }
    HitIsResumable(gs, ids, present, computed, blocks, best);
    if prefixFails == {} && stateFailsAt == {} {
      LargestIsBest(gs, ids, present, computed, least, blocks, best);
    }
  }

  // The two-stage lookup: the longest aligned extension that the store can resume.
  // `prefixFails` and `stateFailsAt` say which lookups raise.
  method LookupExternalHitTokens(gs: Groups, computed: nat, ids: seq<seq<Hash>>, present: set<Hash>,
                                 prefixFails: set<nat>, stateFailsAt: set<nat>)
      returns (hit: Hit)
    requires gs.Valid() && Hashed(gs, ids) && computed % gs.lcmBlockSize == 0
    ensures hit.tokens == hit.lcmBlocks * gs.lcmBlockSize
    ensures FullGroupFails(gs, prefixFails) ==> hit.tokens == 0
    ensures hit.tokens > 0 ==> Resumable(gs, ids, present, computed, hit.tokens)
    ensures prefixFails == {} && stateFailsAt == {} ==>
              forall e: nat :: e > hit.tokens ==> !Resumable(gs, ids, present, computed, e)
    ensures hit.prefetch ==
              if hit.tokens == 0 || NoStates(gs) then []
              else PrefetchKeys(gs, ids, (computed + hit.tokens) / gs.lcmBlockSize)
    ensures Prefetches(hit.prefetch, gs, ids, if hit.tokens == 0 then 0 else (computed + hit.tokens) / gs.lcmBlockSize)
  {
    var best := BestBlocks(gs, computed, ids, present, prefixFails, stateFailsAt);
    hit := HitOfBlocks(gs, computed, ids, best);
  }

  // The answer for an extension by some common blocks, with the keys to prefetch.
  method HitOfBlocks(gs: Groups, computed: nat, ids: seq<seq<Hash>>, best: nat) returns (hit: Hit)
    requires gs.Valid() && |ids| == |gs.all|
    ensures hit.lcmBlocks == best && hit.tokens == best * gs.lcmBlockSize
    ensures hit.prefetch ==
              if hit.tokens == 0 || NoStates(gs) then []
              else PrefetchKeys(gs, ids, (computed + hit.tokens) / gs.lcmBlockSize)
    ensures Prefetches(hit.prefetch, gs, ids, if hit.tokens == 0 then 0 else (computed + hit.tokens) / gs.lcmBlockSize)
  {
    var tokens := best * gs.lcmBlockSize;
    var boundaries := (computed + tokens) / gs.lcmBlockSize;
    var n := if tokens == 0 then 0 else boundaries;
    hit := Hit(tokens, best, if tokens == 0 || NoStates(gs) then [] else PrefetchKeys(gs, ids, boundaries));
    PrefetchIsComplete(gs, ids, n);
  }

  predicate NoStates(gs: Groups) {
    forall g :: 0 <= g < |gs.all| ==> !gs.all[g].isMambaAlign
  }

  lemma StageOneBlocks(gs: Groups, ids: seq<seq<Hash>>, present: set<Hash>, computed: nat, least: nat, blocks: nat)
    requires gs.Valid() && |ids| == |gs.all| && blocks == least / gs.lcmBlockSize
    requires FitsBelow(gs, ids, present, computed, least, |gs.all|)
    ensures FitsBlocks(gs, ids, present, computed, blocks)
    ensures least == 0 ==> blocks == 0
  {
    DivBounds(least, gs.lcmBlockSize);
    if least == 0 { DivUnique(0, 0, gs.lcmBlockSize); }
    forall b: nat | 0 < b <= blocks ensures PrefixPresent(gs, ids, present, computed, b * gs.lcmBlockSize) {
      MulMonotone(b, blocks, gs.lcmBlockSize);
      MulMonotone(1, b, gs.lcmBlockSize);
      DivMultiple(b, gs.lcmBlockSize);
      assert PresentBelow(gs, ids, present, computed, b * gs.lcmBlockSize, |gs.all|);
    }
  }

  lemma HitIsResumable(gs: Groups, ids: seq<seq<Hash>>, present: set<Hash>, computed: nat, blocks: nat, best: nat)
    requires gs.Valid() && |ids| == |gs.all| && best <= blocks && FitsBlocks(gs, ids, present, computed, blocks)
    requires best == 0 || NoStates(gs) || StatesPresent(gs, ids, present, computed + best * gs.lcmBlockSize)
    ensures NoneOrResumable(gs, ids, present, computed, best)
  {
    if best > 0 {
      MulMonotone(1, best, gs.lcmBlockSize);
      DivMultiple(best, gs.lcmBlockSize);
    }
  }

  lemma LargestIsBest(gs: Groups, ids: seq<seq<Hash>>, present: set<Hash>, computed: nat, least: nat, blocks: nat, best: nat)
    requires gs.Valid() && |ids| == |gs.all| && best <= blocks == least / gs.lcmBlockSize
    requires NoStatesAfter(gs, ids, present, computed, best, blocks)
    requires TightBelow(gs, ids, present, computed, least, |gs.all|)
    ensures NothingLonger(gs, ids, present, computed, best)
  {
    var longest := best * gs.lcmBlockSize;
    forall e: nat | e > longest && e % gs.lcmBlockSize == 0 ensures !Resumable(gs, ids, present, computed, e) {
      var b := ModMeansMultiple(e, gs.lcmBlockSize);
      if e <= least {
        DivMonotone(e, least, gs.lcmBlockSize);
        if b <= best { MulMonotone(b, best, gs.lcmBlockSize); }
        assert !StatesPresent(gs, ids, present, computed + b * gs.lcmBlockSize);
      } else {
        assert !PresentBelow(gs, ids, present, computed, e, |gs.all|);
      }
    }
  }
}
