/**
 The scheduler side of the hybrid connector: matching a request against the store,
 and the blocks and states that each scheduling step loads and dumps.
 */
module HybridDispatch {
  import opened Wrappers
  import opened Prefixes
  import opened Arithmetic
  import opened HashChain
  import opened HybridLookup

  datatype HLARequestMeta = HLARequestMeta(hbmHitBlockNum: nat, totalHitBlockNum: nat, numTokenIds: nat,
                                           tokenProcessed: nat, groupIds: seq<seq<Hash>>, tables: seq<seq<nat>>)

  // One store key with the device block it is moved to or from; block 0 is the null block.
  datatype Pair = Pair(key: Hash, block: nat)

  datatype Config = Config(gs: Groups, recomputeTokens: nat, persistTokenThreshold: nat)

  // ------------------------------------------------------------------ group ids

  ghost predicate IdsOf(gs: Groups, tokens: seq<Token>, ids: seq<seq<Hash>>)
    requires gs.Valid()
  {
    && |ids| == |gs.all|
    && forall g :: 0 <= g < |gs.all| ==> ids[g] == GroupIds(gs.all[g], tokens)
  }

  method ComputeBlockHashes(group: GroupInfo, tokens: seq<Token>) returns (ids: seq<Hash>)
    requires 0 < group.blockSize
    ensures ids == GroupIds(group, tokens)
  {
    if group.isMambaAlign {
      BlocksInIsQuotient(|tokens|, group.blockSize);
      return seq(|tokens| / group.blockSize, i => Blank);
    }
    ids := GenerateHash(0, group.blockSize, tokens, group.seed);
  }

  method ComputeAllGroupBlockIds(gs: Groups, tokens: seq<Token>) returns (ids: seq<seq<Hash>>)
    requires gs.Valid()
    ensures IdsOf(gs, tokens, ids) && Hashed(gs, ids)
  {
    ids := [];
    for g := 0 to |gs.all|
      invariant |ids| == g && forall i :: 0 <= i < g ==> ids[i] == GroupIds(gs.all[i], tokens)
    {
      var one := ComputeBlockHashes(gs.all[g], tokens);
      ids := ids + [one];
    }
    IdsAreHashed(gs, tokens, ids);
  }

  lemma IdsAreHashed(gs: Groups, tokens: seq<Token>, ids: seq<seq<Hash>>)
    requires gs.Valid() && IdsOf(gs, tokens, ids)
    ensures Hashed(gs, ids)
  {
    forall g | 0 <= g < |ids| && !gs.all[g].isMambaAlign ensures Blank !in ids[g] {
      forall i | 0 <= i < |ids[g]| ensures ids[g][i] != Blank {
        InBlocks(gs.all[g].blockSize, |tokens|, i);
      }
    }
  }

  // The seed at the bottom of a chain.
  function Root(id: Hash): Hash {
    match id
    case Block(_, parent, _) => Root(parent)
    case _ => id
  }

  lemma {:induction false} RootOfBlockId(blockSize: nat, tokens: seq<Token>, seed: Hash, i: nat)
    requires 0 < blockSize && (i + 1) * blockSize <= |tokens| && !seed.Block?
    ensures Root(BlockId(0, blockSize, tokens, seed, i)) == seed
  {
    assert i * blockSize <= (i + 1) * blockSize;
    if i > 0 {
      RootOfBlockId(blockSize, tokens, seed, i - 1);
    }
  }

  // A full-attention key stands for one group, one block index and one token prefix.
  lemma GroupKeysMeaning(gs: Groups, a: seq<Token>, b: seq<Token>, g: nat, h: nat, i: nat, j: nat)
    requires gs.Valid() && g < |gs.all| && h < |gs.all| && !gs.all[g].isMambaAlign && !gs.all[h].isMambaAlign
    requires i < |GroupIds(gs.all[g], a)| && j < |GroupIds(gs.all[h], b)|
    ensures GroupIds(gs.all[g], a)[i] == GroupIds(gs.all[h], b)[j] <==>
            var end := (i + 1) * gs.all[g].blockSize;
            g == h && i == j && end <= |a| && end <= |b| && a[..end] == b[..end]
  {
    var k, l := gs.all[g].blockSize, gs.all[h].blockSize;
    InBlocks(k, |a|, i);
    InBlocks(l, |b|, j);
    RootOfBlockId(k, a, gs.all[g].seed, i);
    RootOfBlockId(l, b, gs.all[h].seed, j);
    if g == h {
      SharedIdIffSharedPrefix(0, k, a, b, gs.all[g].seed, i, j);
    }
  }

  // A state key stands for one group, one boundary and the tokens up to it.
  lemma StateKeysMeanBoundaries(gs: Groups, a: seq<Token>, b: seq<Token>, idsA: seq<seq<Hash>>, idsB: seq<seq<Hash>>,
                                g: nat, h: nat, p: nat, q: nat)
    requires gs.Valid() && IdsOf(gs, a, idsA) && IdsOf(gs, b, idsB) && g < |gs.all| && h < |gs.all|
    requires StateHash(gs, g, p, idsA).Some? && StateHash(gs, h, q, idsB).Some?
    ensures p <= |a| && q <= |b|
    ensures StateHash(gs, g, p, idsA) == StateHash(gs, h, q, idsB) <==> g == h && p == q && a[..p] == b[..q]
  {
    var primary := gs.Primary();
    var bs := gs.all[primary].blockSize;
    MultipleOfMultiple(p, gs.lcmBlockSize, bs);
    MultipleOfMultiple(q, gs.lcmBlockSize, bs);
    var i := ModMeansMultiple(p, bs);
    var j := ModMeansMultiple(q, bs);
    InBlocks(bs, |a|, i - 1);
    InBlocks(bs, |b|, j - 1);
    GroupKeysMeaning(gs, a, b, primary, primary, i - 1, j - 1);
  }

  // ------------------------------------------------------------------- matching

  // The most common-multiple blocks a request may hit, leaving the tokens to recompute.
  function MaxHit(numTokens: nat, recomputeTokens: nat, lcm: nat): nat
    requires 0 < lcm
  {
    if numTokens < recomputeTokens then 0 else (numTokens - recomputeTokens) / lcm
  }

  function LookupIds(gs: Groups, ids: seq<seq<Hash>>, numTokens: nat, maxHit: nat): seq<seq<Hash>>
    requires gs.Valid() && |ids| == |gs.all|
  {
    if maxHit < numTokens / gs.lcmBlockSize
    then seq(|ids|, g requires 0 <= g < |ids| => Slice(ids[g], 0, maxHit * (gs.lcmBlockSize / gs.all[g].blockSize)))
    else ids
  }

  lemma HitLeavesTokens(numTokens: nat, recomputeTokens: nat, lcm: nat, pos: nat)
    requires 0 < lcm && pos % lcm == 0 && 0 < pos
    ensures pos <= MaxHit(numTokens, recomputeTokens, lcm) * lcm <==> pos + recomputeTokens <= numTokens
  {
    var q := ModMeansMultiple(pos, lcm);
    if recomputeTokens <= numTokens {
      var room := numTokens - recomputeTokens;
      DivBounds(room, lcm);
      if pos <= room {
        DivMonotone(pos, room, lcm);
        MulMonotone(q, room / lcm, lcm);
      }
    }
  }

  // Blocks of one group: cutting its list at maxHit common-multiple blocks.
  lemma CutBlocks(blockSize: nat, lcm: nat, ids: seq<Hash>, numTokens: nat, maxHit: nat,
                  present: set<Hash>, computed: nat, e: nat)
    requires 0 < blockSize && 0 < lcm && lcm % blockSize == 0 && |ids| == numTokens / blockSize
    requires computed % lcm == 0 && e % lcm == 0
    ensures BlocksPresent(blockSize, Slice(ids, 0, maxHit * (lcm / blockSize)), present, computed, e) <==>
            BlocksPresent(blockSize, ids, present, computed, e) && computed + e <= maxHit * lcm
    ensures maxHit >= numTokens / lcm && BlocksPresent(blockSize, ids, present, computed, e) ==> computed + e <= maxHit * lcm
  {
    var cut := maxHit * (lcm / blockSize);
    var from, q := computed / blockSize, (computed + e) / blockSize;
    SumOfMultiples(computed, e, lcm);
    CutPoint(blockSize, lcm, maxHit, computed + e);
    CutInside(ids, cut, present, from, q);
    if q <= numTokens / blockSize && maxHit >= numTokens / lcm {
      ReachInside(blockSize, lcm, numTokens, computed + e);
      MulMonotone(numTokens / lcm, maxHit, lcm);
    }
  }

  lemma CutPoint(blockSize: nat, lcm: nat, maxHit: nat, pos: nat)
    requires 0 < blockSize && 0 < lcm && lcm % blockSize == 0 && pos % lcm == 0
    ensures pos / blockSize <= maxHit * (lcm / blockSize) <==> pos <= maxHit * lcm
  {
    var cut := maxHit * (lcm / blockSize);
    MultipleOfMultiple(pos, lcm, blockSize);
    var q := ModMeansMultiple(pos, blockSize);
    var r := ModMeansMultiple(lcm, blockSize);
    assert cut * blockSize == maxHit * lcm by { assert maxHit * (r * blockSize) == (maxHit * r) * blockSize; }
    if q <= cut { MulMonotone(q, cut, blockSize); } else { MulMonotone(cut + 1, q, blockSize); }
  }

  lemma ReachInside(blockSize: nat, lcm: nat, numTokens: nat, pos: nat)
    requires 0 < blockSize && 0 < lcm && lcm % blockSize == 0 && pos % lcm == 0
    requires pos / blockSize <= numTokens / blockSize
    ensures pos <= numTokens && pos <= (numTokens / lcm) * lcm
  {
    MultipleOfMultiple(pos, lcm, blockSize);
    var q := ModMeansMultiple(pos, blockSize);
    DivBounds(numTokens, blockSize);
    MulMonotone(q, numTokens / blockSize, blockSize);
    var t := ModMeansMultiple(pos, lcm);
    DivMonotone(pos, numTokens, lcm);
    MulMonotone(t, numTokens / lcm, lcm);
  }

  lemma CutInside(ids: seq<Hash>, cut: nat, present: set<Hash>, from: nat, q: nat)
    ensures var short := Slice(ids, 0, cut);
            (q <= |short| && forall i :: from <= i < q ==> short[i] in present) <==>
            (q <= |ids| && (forall i :: from <= i < q ==> ids[i] in present) && q <= cut)
  {
  }

  // Looking up the cut lists answers exactly for the hits that leave enough tokens.
  lemma CutLookup(gs: Groups, ids: seq<seq<Hash>>, numTokens: nat, maxHit: nat, present: set<Hash>, computed: nat, e: nat)
    requires gs.Valid() && |ids| == |gs.all|
    requires forall g :: 0 <= g < |gs.all| ==> |ids[g]| == BlocksIn(numTokens, gs.all[g].blockSize)
    requires computed % gs.lcmBlockSize == 0 && 0 < e && e % gs.lcmBlockSize == 0
    ensures Resumable(gs, LookupIds(gs, ids, numTokens, maxHit), present, computed, e) <==>
            Resumable(gs, ids, present, computed, e) && computed + e <= maxHit * gs.lcmBlockSize
  {
    var lookup := LookupIds(gs, ids, numTokens, maxHit);
    var inside := computed + e <= maxHit * gs.lcmBlockSize;
    forall g | 0 <= g < |gs.all| && !gs.all[g].isMambaAlign
      ensures BlocksPresent(gs.all[g].blockSize, lookup[g], present, computed, e) <==>
              BlocksPresent(gs.all[g].blockSize, ids[g], present, computed, e) && inside
    {
      BlocksInIsQuotient(numTokens, gs.all[g].blockSize);
      CutBlocks(gs.all[g].blockSize, gs.lcmBlockSize, ids[g], numTokens, maxHit, present, computed, e);
    }
    var primary := gs.Primary();
    assert PrefixPresent(gs, lookup, present, computed, e) <==> PrefixPresent(gs, ids, present, computed, e) && inside;
    if PrefixPresent(gs, lookup, present, computed, e) {
      CutStates(gs, ids, lookup, present, computed, e);
    }
  }

  lemma CutStates(gs: Groups, ids: seq<seq<Hash>>, lookup: seq<seq<Hash>>, present: set<Hash>, computed: nat, e: nat)
    requires gs.Valid() && |ids| == |gs.all| == |lookup|
    requires forall g :: 0 <= g < |ids| ==> lookup[g] <= ids[g]
    requires computed % gs.lcmBlockSize == 0 && e % gs.lcmBlockSize == 0
    requires PrefixPresent(gs, lookup, present, computed, e)
    ensures var pos := computed + e; forall g :: 0 <= g < |gs.all| ==> StateHash(gs, g, pos, lookup) == StateHash(gs, g, pos, ids)
  {
    var primary, pos := gs.Primary(), computed + e;
    assert BlocksPresent(gs.all[primary].blockSize, lookup[primary], present, computed, e);
    forall g | 0 <= g < |gs.all| ensures StateHash(gs, g, pos, lookup) == StateHash(gs, g, pos, ids) {
      StateHashFromPrefix(gs, g, pos, lookup, ids);
    }
  }

  lemma StateHashFromPrefix(gs: Groups, g: nat, pos: nat, ids: seq<seq<Hash>>, more: seq<seq<Hash>>)
    requires gs.Valid() && g < |gs.all| == |ids| == |more|
    requires ids[gs.Primary()] <= more[gs.Primary()] && pos / gs.all[gs.Primary()].blockSize <= |ids[gs.Primary()]|
    ensures StateHash(gs, g, pos, ids) == StateHash(gs, g, pos, more)
  {
  }

  // The external hit of a request: the longest resumable extension leaving enough tokens.
  ghost predicate IsBestHit(c: Config, ids: seq<seq<Hash>>, numTokens: nat, computed: nat, present: set<Hash>, external: nat)
    requires c.gs.Valid() && |ids| == |c.gs.all|
  {
    && (external > 0 ==> Resumable(c.gs, ids, present, computed, external) && computed + external + c.recomputeTokens <= numTokens)
    && forall e: nat :: e > external && computed + e + c.recomputeTokens <= numTokens ==> !Resumable(c.gs, ids, present, computed, e)
  }

  // What a tracked request carries after matching: a hit that the store held.
  ghost predicate Backed(gs: Groups, m: HLARequestMeta, present: set<Hash>)
  {
    && gs.Valid() && |m.groupIds| == |gs.all| == |m.tables|
    && (forall g :: 0 <= g < |gs.all| ==> |m.groupIds[g]| == BlocksIn(m.numTokenIds, gs.all[g].blockSize))
    && m.hbmHitBlockNum <= m.totalHitBlockNum
    && (m.hbmHitBlockNum < m.totalHitBlockNum ==>
          Resumable(gs, m.groupIds, present, m.hbmHitBlockNum * gs.lcmBlockSize,
                    (m.totalHitBlockNum - m.hbmHitBlockNum) * gs.lcmBlockSize))
  }

  // Matches a request; None when it is too short to be tracked.
  method MatchRequest(c: Config, tokens: seq<Token>, computed: nat, present: set<Hash>,
                      prefixFails: set<nat>, stateFailsAt: set<nat>)
      returns (meta: Option<HLARequestMeta>, external: nat)
    requires c.gs.Valid() && computed % c.gs.lcmBlockSize == 0
    ensures c.persistTokenThreshold > |tokens| <==> meta.None?
    ensures meta.None? ==> external == 0
    ensures meta.Some? ==> Matched(c, tokens, computed, present, prefixFails == {} && stateFailsAt == {}, meta.value, external)
  {
    var lcm := c.gs.lcmBlockSize;
    if c.persistTokenThreshold > |tokens| {
      return None, 0;
    }
    var ids := ComputeAllGroupBlockIds(c.gs, tokens);
    IdsLength(c.gs, tokens, ids);
    var blocks := ExternalHit(c, ids, |tokens|, computed, present, prefixFails, stateFailsAt);
    external := blocks * lcm;
    var hbm := WholeQuotient(computed, lcm);
    var m := HLARequestMeta(hbm, hbm + blocks, |tokens|, (hbm + blocks) * lcm, ids, seq(|ids|, g => []));
    MatchedBy(c, tokens, computed, present, prefixFails == {} && stateFailsAt == {}, blocks, m);
    meta := Some(m);
  }

  method WholeQuotient(length: nat, size: nat) returns (q: nat)
    requires 0 < size && length % size == 0
    ensures q * size == length
  {
    q := length / size;
    DivBounds(length, size);
  }

  // What a lookup promises for a hit of some common-multiple blocks.
  ghost predicate HitOf(c: Config, ids: seq<seq<Hash>>, numTokens: nat, computed: nat, present: set<Hash>,
                        answered: bool, external: nat)
    requires c.gs.Valid() && |ids| == |c.gs.all|
  {
    && (external > 0 ==> Resumable(c.gs, ids, present, computed, external) && computed + external + c.recomputeTokens <= numTokens)
    && (answered ==> IsBestHit(c, ids, numTokens, computed, present, external))
  }

  // The lookup over lists cut before the tokens to recompute.
  method ExternalHit(c: Config, ids: seq<seq<Hash>>, numTokens: nat, computed: nat, present: set<Hash>,
                     prefixFails: set<nat>, stateFailsAt: set<nat>)
      returns (blocks: nat)
    requires c.gs.Valid() && Hashed(c.gs, ids) && computed % c.gs.lcmBlockSize == 0
    requires forall g :: 0 <= g < |c.gs.all| ==> |ids[g]| == BlocksIn(numTokens, c.gs.all[g].blockSize)
    ensures HitOf(c, ids, numTokens, computed, present, prefixFails == {} && stateFailsAt == {}, blocks * c.gs.lcmBlockSize)
  {
    var maxHit := MaxHit(numTokens, c.recomputeTokens, c.gs.lcmBlockSize);
    var lookup := LookupIds(c.gs, ids, numTokens, maxHit);
    LookupIsHashed(c.gs, ids, numTokens, maxHit);
    var hit := LookupExternalHitTokens(c.gs, computed, lookup, present, prefixFails, stateFailsAt);
    blocks := hit.lcmBlocks;
    BestHitTransfers(c, ids, numTokens, computed, present, blocks);
  }

  // A request matched with `computed` tokens on the device and `external` tokens in the store.
  ghost predicate Matched(c: Config, tokens: seq<Token>, computed: nat, present: set<Hash>, answered: bool,
                          m: HLARequestMeta, external: nat)
    requires c.gs.Valid()
  {
    && IdsOf(c.gs, tokens, m.groupIds) && m.numTokenIds == |tokens|
    && Backed(c.gs, m, present)
    && m.hbmHitBlockNum * c.gs.lcmBlockSize == computed
    && m.totalHitBlockNum * c.gs.lcmBlockSize == m.tokenProcessed == computed + external
    && (forall g :: 0 <= g < |c.gs.all| ==> m.tables[g] == [])
    && (external > 0 ==> computed + external + c.recomputeTokens <= |tokens|)
    && (answered ==> IsBestHit(c, m.groupIds, |tokens|, computed, present, external))
  }

  lemma MatchedBy(c: Config, tokens: seq<Token>, computed: nat, present: set<Hash>, answered: bool, blocks: nat, m: HLARequestMeta)
    requires c.gs.Valid()
    requires IdsOf(c.gs, tokens, m.groupIds) && m.numTokenIds == |tokens|
    requires m.hbmHitBlockNum * c.gs.lcmBlockSize == computed && m.totalHitBlockNum == m.hbmHitBlockNum + blocks
    requires m.tokenProcessed == m.totalHitBlockNum * c.gs.lcmBlockSize
    requires |m.tables| == |m.groupIds| && forall g :: 0 <= g < |c.gs.all| ==> m.tables[g] == []
    requires HitOf(c, m.groupIds, |tokens|, computed, present, answered, blocks * c.gs.lcmBlockSize)
    ensures Matched(c, tokens, computed, present, answered, m, blocks * c.gs.lcmBlockSize)
  {
    var lcm := c.gs.lcmBlockSize;
    Distribute(m.hbmHitBlockNum, blocks, lcm);
    assert blocks > 0 ==> blocks * lcm > 0 by {
      if blocks > 0 { MulMonotone(1, blocks, lcm); }
    }
    assert m.totalHitBlockNum - m.hbmHitBlockNum == blocks;
    IdsLength(c.gs, tokens, m.groupIds);
  }

  lemma IdsLength(gs: Groups, tokens: seq<Token>, ids: seq<seq<Hash>>)
    requires gs.Valid() && IdsOf(gs, tokens, ids)
    ensures forall g :: 0 <= g < |gs.all| ==> |ids[g]| == BlocksIn(|tokens|, gs.all[g].blockSize)
  {
    forall g | 0 <= g < |gs.all| ensures |ids[g]| == BlocksIn(|tokens|, gs.all[g].blockSize) {
      assert ids[g] == GroupIds(gs.all[g], tokens);
    }
  }

  lemma LookupIsHashed(gs: Groups, ids: seq<seq<Hash>>, numTokens: nat, maxHit: nat)
    requires gs.Valid() && Hashed(gs, ids)
    ensures Hashed(gs, LookupIds(gs, ids, numTokens, maxHit))
  {
  }

  lemma BestHitTransfers(c: Config, ids: seq<seq<Hash>>, numTokens: nat, computed: nat, present: set<Hash>, blocks: nat)
    requires c.gs.Valid() && |ids| == |c.gs.all| && computed % c.gs.lcmBlockSize == 0
    requires forall g :: 0 <= g < |c.gs.all| ==> |ids[g]| == BlocksIn(numTokens, c.gs.all[g].blockSize)
    ensures var lookup := LookupIds(c.gs, ids, numTokens, MaxHit(numTokens, c.recomputeTokens, c.gs.lcmBlockSize));
            var external := blocks * c.gs.lcmBlockSize;
            && (external > 0 && Resumable(c.gs, lookup, present, computed, external) ==>
                  Resumable(c.gs, ids, present, computed, external) && computed + external + c.recomputeTokens <= numTokens)
            && ((external > 0 ==> Resumable(c.gs, lookup, present, computed, external)) &&
                (forall e: nat :: e > external ==> !Resumable(c.gs, lookup, present, computed, e)) ==>
                IsBestHit(c, ids, numTokens, computed, present, external))
  {
    var lcm := c.gs.lcmBlockSize;
    var maxHit := MaxHit(numTokens, c.recomputeTokens, lcm);
    var lookup := LookupIds(c.gs, ids, numTokens, maxHit);
    forall e: nat | 0 < e && e % lcm == 0
      ensures Resumable(c.gs, lookup, present, computed, e) <==>
              Resumable(c.gs, ids, present, computed, e) && computed + e + c.recomputeTokens <= numTokens
    {
      CutResumable(c, ids, numTokens, computed, present, e);
    }
    DivMultiple(blocks, lcm);
  }

  // The cut lists resume exactly where enough tokens are left.
  lemma CutResumable(c: Config, ids: seq<seq<Hash>>, numTokens: nat, computed: nat, present: set<Hash>, e: nat)
    requires c.gs.Valid() && |ids| == |c.gs.all| && computed % c.gs.lcmBlockSize == 0 && 0 < e && e % c.gs.lcmBlockSize == 0
    requires forall g :: 0 <= g < |c.gs.all| ==> |ids[g]| == BlocksIn(numTokens, c.gs.all[g].blockSize)
    ensures var lookup := LookupIds(c.gs, ids, numTokens, MaxHit(numTokens, c.recomputeTokens, c.gs.lcmBlockSize));
            Resumable(c.gs, lookup, present, computed, e) <==>
            Resumable(c.gs, ids, present, computed, e) && computed + e + c.recomputeTokens <= numTokens
  {
    CutLookup(c.gs, ids, numTokens, MaxHit(numTokens, c.recomputeTokens, c.gs.lcmBlockSize), present, computed, e);
    SumOfMultiples(computed, e, c.gs.lcmBlockSize);
    HitLeavesTokens(numTokens, c.recomputeTokens, c.gs.lcmBlockSize, computed + e);
  }
}
