/**
 Prefix-cache soundness over whole runs. Requests are matched, scheduled, computed,
 dumped and finished in any interleaving; memory, store and block tables are shared.
 A value of the KV cache is right when it was computed from exactly its own prefix.
 */
module PrefixCacheRuns {
  import opened Wrappers
  import opened Prefixes
  import opened Arithmetic
  import opened HashChain
  import opened DirectScheduler

  // The KV of one token: what it was computed from, or garbage.
  datatype KV = Good(prefix: seq<Token>) | Bad

  type Page = seq<KV>

  // A scheduled step whose forward pass has not run yet.
  datatype Pending = Pending(from: nat, newTokens: nat, dump: Transfer)

  // A tracked request; the first `valid` tokens have their KV in place.
  datatype Request = Request(tokens: seq<Token>, meta: RequestMeta, valid: nat, pending: Option<Pending>)

  datatype State = State(mem: seq<Page>, store: map<Hash, Page>, live: map<nat, Request>, dumps: set<(Hash, nat)>)

  datatype Event =
    | Matched(id: nat, tokens: seq<Token>, numComputedTokens: nat, present: Option<set<Hash>>)
    | Scheduled(id: nat, newTokens: nat, vllm: seq<nat>, needLoad: bool)
    | Computed(id: nat)
    | DumpDone(key: Hash, block: nat)
    | Written(block: nat, offset: nat, value: KV)
    | Evicted(key: Hash)
    | Shared(key: Hash, page: Page)  // another rank writes to the store
    | Released(id: nat)

  // ------------------------------------------------------------- right content

  ghost predicate SlotRight(bs: nat, mem: seq<Page>, table: seq<nat>, tokens: seq<Token>, i: nat, o: nat) {
    && i < |table| && table[i] < |mem| && o < |mem[table[i]]|
    && i * bs + o < |tokens|
    && mem[table[i]][o] == Good(tokens[..i * bs + o + 1])
  }

  ghost predicate HoldsPrefix(bs: nat, mem: seq<Page>, table: seq<nat>, tokens: seq<Token>, upTo: nat) {
    forall i: nat, o: nat :: o < bs && i * bs + o < upTo ==> SlotRight(bs, mem, table, tokens, i, o)
  }

  // A stored page is right for its key: slot by slot the KV of the key's own prefix.
  ghost predicate PageRight(bs: nat, key: Hash, page: Page) {
    && |page| == bs <= |TokensOf(key)|
    && forall o :: 0 <= o < bs ==> page[o] == Good(TokensOf(key)[..|TokensOf(key)| - bs + o + 1])
  }

  ghost predicate Paged(bs: nat, mem: seq<Page>) {
    forall b :: 0 <= b < |mem| ==> |mem[b]| == bs
  }

  ghost predicate NoDuplicates(table: seq<nat>) {
    forall i, j :: 0 <= i < j < |table| ==> table[i] != table[j]
  }

  // A slot is claimed while a live request has right content in it or a dump reads its block.
  ghost predicate Claimed(bs: nat, s: State, b: nat, o: nat) {
    || (exists r, i: nat :: r in s.live && i < |s.live[r].meta.vllmBlockIds| && s.live[r].meta.vllmBlockIds[i] == b
                            && i * bs + o < s.live[r].valid)
    || (exists d :: d in s.dumps && d.1 == b)
  }

  // ------------------------------------------------------------------ actions

  // Loading: each page of the plan is copied from the store into its block.
  ghost function LoadPages(mem: seq<Page>, store: map<Hash, Page>, ids: seq<Hash>, blocks: seq<nat>): seq<Page>
    requires |ids| == |blocks|
    requires forall k :: 0 <= k < |ids| ==> ids[k] in store && blocks[k] < |mem|
  {
    if ids == [] then mem
    else
      var n := |ids| - 1;
      var before := LoadPages(mem, store, ids[..n], blocks[..n]);
      if blocks[n] < |before| then before[blocks[n] := store[ids[n]]] else before
  }

  // The forward pass: a token's KV is right only if that of every earlier token is.
  ghost function ComputeFrom(bs: nat, mem: seq<Page>, table: seq<nat>, tokens: seq<Token>, q: nat, end: nat): seq<Page>
    requires 0 < bs && end <= |tokens|
    decreases end - q
  {
    if q >= end then mem
    else
      var i, o := q / bs, q % bs;
      var value := if HoldsPrefix(bs, mem, table, tokens, q) then Good(tokens[..q + 1]) else Bad;
      var mem' := if i < |table| && table[i] < |mem| && o < |mem[table[i]]|
                  then mem[table[i] := mem[table[i]][o := value]] else mem;
      ComputeFrom(bs, mem', table, tokens, q + 1, end)
  }

  // A transfer by the keys of this rank.
  function Keyed(c: Config, t: Transfer): (r: Transfer)
    ensures |r.ids| == |t.ids| && r.blocks == t.blocks
    ensures forall k :: 0 <= k < |t.ids| ==> r.ids[k] == RankKey(c.rank, c.isMla, t.ids[k])
  {
    Transfer(seq(|t.ids|, k requires 0 <= k < |t.ids| => RankKey(c.rank, c.isMla, t.ids[k])), t.blocks)
  }

  // What this rank dumps of a plan: with MLA only rank 0 does.
  function Dumps(c: Config, t: Transfer): Transfer {
    if c.isMla && c.rank != 0 then Transfer([], []) else Keyed(c, t)
  }

  // A key that this rank reads or writes.
  predicate OwnKey(c: Config, key: Hash) {
    if c.rank == 0 || c.isMla then !key.Rescoped? else key.Rescoped? && key.rank == c.rank
  }

  // No two ranks dump the same key, and under MLA rank 0 dumps for all.
  lemma RanksDumpApart(c: Config, d: Config, t: Transfer, i: nat, j: nat)
    requires c.isMla == d.isMla && c.rank != d.rank && forall k :: 0 <= k < |t.ids| ==> !t.ids[k].Rescoped?
    requires i < |Dumps(c, t).ids| && j < |Dumps(d, t).ids|
    ensures Dumps(c, t).ids[i] != Dumps(d, t).ids[j]
  {
    RankKeysApart(c.rank, d.rank, c.isMla, t.ids[i], t.ids[j]);
  }

  // What a rank dumps: all blocks of the plan under its own keys, or nothing under MLA when
  // it is not rank 0.
  lemma DumpsAll(c: Config, t: Transfer)
    ensures |Dumps(c, t).ids| == if c.isMla && c.rank > 0 then 0 else |t.ids|
    ensures forall k :: 0 <= k < |Dumps(c, t).ids| ==> TokensOf(Dumps(c, t).ids[k]) == TokensOf(t.ids[k])
    ensures Dumps(c, t).blocks == if c.isMla && c.rank > 0 then [] else t.blocks
  {
  }

  ghost function PairsOf(t: Transfer): set<(Hash, nat)> {
    set k | 0 <= k < |t.ids| && k < |t.blocks| :: (t.ids[k], t.blocks[k])
  }

  ghost predicate Init(s: State) {
    s.store == map[] && s.live == map[] && s.dumps == {}
  }

  // One step of one rank. The conditions on the engine: a table has no block twice and
  // covers the tokens scheduled, HBM hits are right, and a slot is written only while no
  // one else claims it. Other ranks write right pages under any key this rank reads.
  ghost predicate Next(c: Config, s: State, e: Event, s': State)
    requires ValidConfig(c)
  {
    match e
    case Matched(id, tokens, computed, present) =>
      && computed % c.blockSize == 0
      && (present.Some? ==> present.value <= s.store.Keys)
      && (match Match(c, tokens, computed, present)
          case None => s' == s
          case Some(r) => s' == s.(live := s.live[id := Request(tokens, r.0, 0, None)]))
    case Scheduled(id, newTokens, vllm, needLoad) =>
      && id in s.live && s.live[id].pending.None?
      && ScheduledStep(c, s, id, newTokens, vllm, needLoad, s')
    case Computed(id) =>
      && id in s.live && s.live[id].pending.Some?
      && ComputedStep(c, s, id, s')
    case DumpDone(key, block) =>
      && (key, block) in s.dumps && block < |s.mem|
      && s' == s.(store := s.store[key := s.mem[block]], dumps := s.dumps - {(key, block)})
    case Written(block, offset, value) =>
      && block < |s.mem| && offset < |s.mem[block]| && !Claimed(c.blockSize, s, block, offset)
      && s' == s.(mem := s.mem[block := s.mem[block][offset := value]])
    case Evicted(key) =>
      s' == s.(store := s.store - {key})
    case Shared(key, page) =>
      && (OwnKey(c, key) ==> PageRight(c.blockSize, key, page))
      && s' == s.(store := s.store[key := page])
    case Released(id) =>
      s' == s.(live := s.live - {id})
  }

  // The store holds what is loaded, and nobody else claims the blocks it goes to.
  ghost predicate Loadable(bs: nat, s: State, load: Transfer) {
    && |load.ids| == |load.blocks|
    && (forall k :: 0 <= k < |load.ids| ==> load.ids[k] in s.store && load.blocks[k] < |s.mem|)
    && (forall k, o :: 0 <= k < |load.blocks| && 0 <= o < bs ==> !Claimed(bs, s, load.blocks[k], o))
  }

  // What the engine guarantees of a step: a request's first step loads, no block is in a
  // table twice, there are blocks for all tokens, and the hits on the device are right.
  ghost predicate EngineAllows(c: Config, s: State, r: Request, table: seq<nat>, newTokens: nat, needLoad: bool)
    requires ValidConfig(c)
  {
    var m := r.meta;
    && (m.vllmBlockIds == [] ==> needLoad)
    && table != [] && NoDuplicates(table) && (forall b :: b in table ==> b < |s.mem|)
    && m.totalHitBlockNum <= |table|
    && (m.tokenProcessed < m.numTokenIds ==> BlocksIn(m.tokenProcessed + newTokens, c.blockSize) <= |table|)
    && (needLoad ==> HoldsPrefix(c.blockSize, s.mem, table, r.tokens, m.hbmHitBlockNum * c.blockSize))
  }

  // What the connector itself must have seen to: a first or resumed step finds no blocks
  // in its bookkeeping. A match that returns early leaves those of a preempted request,
  // and such a stale step is excluded here.
  ghost predicate TableIsFresh(m: RequestMeta, needLoad: bool) {
    needLoad ==> m.vllmBlockIds == []
  }

  ghost predicate ScheduledStep(c: Config, s: State, id: nat, newTokens: nat, vllm: seq<nat>, needLoad: bool, s': State)
    requires ValidConfig(c) && id in s.live
  {
    var r := s.live[id];
    var m := r.meta;
    var d := Dispatch(c.blockSize, m, newTokens, vllm, needLoad);
    var load := Keyed(c, d.1.load);
    && TableIsFresh(m, needLoad)
    && EngineAllows(c, s, r, m.vllmBlockIds + vllm, newTokens, needLoad)
    && Loadable(c.blockSize, s, load)
    && s'.store == s.store && s'.dumps == s.dumps
    && s'.mem == LoadPages(s.mem, s.store, load.ids, load.blocks)
    && s'.live == s.live[id := Request(r.tokens, d.0, if needLoad then m.totalHitBlockNum * c.blockSize else r.valid,
                                       Some(Pending(m.tokenProcessed, newTokens, d.1.dump)))]
  }

  ghost predicate ComputedStep(c: Config, s: State, id: nat, s': State)
    requires ValidConfig(c) && id in s.live && s.live[id].pending.Some?
  {
    var r := s.live[id];
    var p := r.pending.value;
    var end := Min(p.from + p.newTokens, |r.tokens|);
    && end <= |r.meta.vllmBlockIds| * c.blockSize
    && (forall i: nat, o: nat :: i < |r.meta.vllmBlockIds| && o < c.blockSize && r.valid <= i * c.blockSize + o < end ==>
          !Claimed(c.blockSize, s, r.meta.vllmBlockIds[i], o))
    && s' == s.(mem := ComputeFrom(c.blockSize, s.mem, r.meta.vllmBlockIds, r.tokens, p.from, end),
                live := s.live[id := r.(valid := if r.valid >= end then r.valid else end, pending := None)],
                dumps := s.dumps + PairsOf(Dumps(c, p.dump)))
  }

  // ---------------------------------------------------------------- invariant

  ghost predicate RequestRight(c: Config, mem: seq<Page>, r: Request)
    requires ValidConfig(c)
  {
    var m := r.meta;
    && m.ucmBlockIds == Chain(0, c.blockSize, r.tokens, c.seed)
    && m.numTokenIds == |r.tokens| && r.valid <= |r.tokens|
    && m.hbmHitBlockNum <= m.totalHitBlockNum <= |m.ucmBlockIds|
    && NoDuplicates(m.vllmBlockIds) && (forall b :: b in m.vllmBlockIds ==> b < |mem|)
    && HoldsPrefix(c.blockSize, mem, m.vllmBlockIds, r.tokens, r.valid)
    && (m.vllmBlockIds == [] && r.pending.None? ==>
          m.tokenProcessed <= m.totalHitBlockNum * c.blockSize && m.tokenProcessed <= |r.tokens|)
    && (m.vllmBlockIds != [] && r.pending.None? ==> Min(m.tokenProcessed, |r.tokens|) <= r.valid)
    && (r.pending.Some? ==> m.vllmBlockIds != [] && PendingRight(c, r))
  }

  // A pending dump covers blocks that will be complete once the step has run.
  ghost predicate PendingRight(c: Config, r: Request)
    requires ValidConfig(c) && r.pending.Some?
  {
    var p, ids, table := r.pending.value, r.meta.ucmBlockIds, r.meta.vllmBlockIds;
    var start, end := BlocksIn(p.from, c.blockSize), BlocksIn(Min(p.from + p.newTokens, |r.tokens|), c.blockSize);
    && Min(p.from, |r.tokens|) <= r.valid
    && Min(r.meta.tokenProcessed, |r.tokens|) <= Min(p.from + p.newTokens, |r.tokens|)
    && (p.dump == Transfer([], []) ||
        (start <= end <= |ids| && end <= |table| && p.dump == Transfer(ids[start..end], table[start..end])))
  }

  ghost predicate Inv(c: Config, s: State)
    requires ValidConfig(c)
  {
    && Paged(c.blockSize, s.mem)
    && (forall key :: key in s.store && OwnKey(c, key) ==> PageRight(c.blockSize, key, s.store[key]))
    && (forall id :: id in s.live ==> RequestRight(c, s.mem, s.live[id]))
    && (forall d :: d in s.dumps ==> d.1 < |s.mem| && PageRight(c.blockSize, d.0, s.mem[d.1]))
  }

  // ------------------------------------------------------------------- frames

  // A memory change that touches no claimed slot.
  ghost predicate Untouched(bs: nat, s: State, mem': seq<Page>) {
    && |mem'| == |s.mem| && Paged(bs, mem')
    && forall b, o :: 0 <= b < |s.mem| && 0 <= o < bs && o < |s.mem[b]| && mem'[b][o] != s.mem[b][o] ==> !Claimed(bs, s, b, o)
  }

  lemma UntouchedKeepsOthers(c: Config, s: State, mem': seq<Page>)
    requires ValidConfig(c) && Inv(c, s) && Untouched(c.blockSize, s, mem')
    ensures forall id :: id in s.live ==> RequestRight(c, mem', s.live[id])
    ensures forall d :: d in s.dumps ==> PageRight(c.blockSize, d.0, mem'[d.1])
  {
    var bs := c.blockSize;
    forall id | id in s.live ensures RequestRight(c, mem', s.live[id]) {
      var r := s.live[id];
      forall i: nat, o: nat | o < bs && i * bs + o < r.valid
        ensures SlotRight(bs, mem', r.meta.vllmBlockIds, r.tokens, i, o)
      {
        assert SlotRight(bs, s.mem, r.meta.vllmBlockIds, r.tokens, i, o);
        assert Claimed(bs, s, r.meta.vllmBlockIds[i], o);
      }
    }
    forall d | d in s.dumps ensures PageRight(bs, d.0, mem'[d.1]) {
      forall o | 0 <= o < bs ensures mem'[d.1][o] == s.mem[d.1][o] {
        assert Claimed(bs, s, d.1, o);
      }
    }
  }

  // ------------------------------------------------------------ loads are right

  lemma {:induction false} LoadPagesSpec(mem: seq<Page>, store: map<Hash, Page>, ids: seq<Hash>, blocks: seq<nat>)
    requires |ids| == |blocks| && NoDuplicates(blocks)
    requires forall k :: 0 <= k < |ids| ==> ids[k] in store && blocks[k] < |mem|
    ensures var mem' := LoadPages(mem, store, ids, blocks);
            && |mem'| == |mem|
            && (forall k :: 0 <= k < |ids| ==> mem'[blocks[k]] == store[ids[k]])
            && (forall b :: 0 <= b < |mem| && b !in blocks ==> mem'[b] == mem[b])
  {
    if ids != [] {
      var n := |ids| - 1;
      LoadPagesSpec(mem, store, ids[..n], blocks[..n]);
      assert blocks == blocks[..n] + [blocks[n]];
    }
  }

  lemma PageBecomesSlots(c: Config, r: Request, mem: seq<Page>, table: seq<nat>, i: nat)
    requires ValidConfig(c) && i < |table| && table[i] < |mem|
    requires (i + 1) * c.blockSize <= |r.tokens|
    requires PageRight(c.blockSize, BlockId(0, c.blockSize, r.tokens, c.seed, i), mem[table[i]])
    ensures forall o: nat :: o < c.blockSize ==> SlotRight(c.blockSize, mem, table, r.tokens, i, o)
  {
    var key := BlockId(0, c.blockSize, r.tokens, c.seed, i);
    TokensOfBlockId(0, c.blockSize, r.tokens, c.seed, i);
    forall o: nat | o < c.blockSize ensures SlotRight(c.blockSize, mem, table, r.tokens, i, o) {
      assert (i + 1) * c.blockSize == i * c.blockSize + c.blockSize;
      assert TokensOf(key)[..i * c.blockSize + o + 1] == r.tokens[..i * c.blockSize + o + 1];
    }
  }

  lemma SlotsBecomePage(c: Config, r: Request, mem: seq<Page>, table: seq<nat>, i: nat)
    requires ValidConfig(c) && i < |table| && table[i] < |mem| && |mem[table[i]]| == c.blockSize
    requires (i + 1) * c.blockSize <= |r.tokens|
    requires HoldsPrefix(c.blockSize, mem, table, r.tokens, (i + 1) * c.blockSize)
    ensures PageRight(c.blockSize, BlockId(0, c.blockSize, r.tokens, c.seed, i), mem[table[i]])
  {
    var key := BlockId(0, c.blockSize, r.tokens, c.seed, i);
    TokensOfBlockId(0, c.blockSize, r.tokens, c.seed, i);
    var bs, start := c.blockSize, i * c.blockSize;
    Distribute(i, 1, bs);
    assert TokensOf(key) == r.tokens[..start + bs];
    forall o | 0 <= o < bs ensures mem[table[i]][o] == Good(TokensOf(key)[..|TokensOf(key)| - bs + o + 1]) {
      SlotOfBlock(bs, mem, table, r.tokens, i, start, o);
      TakeTake(r.tokens, start + bs, start + o + 1);
    }
  }

  lemma SlotOfBlock(bs: nat, mem: seq<Page>, table: seq<nat>, tokens: seq<Token>, i: nat, start: nat, o: nat)
    requires start == i * bs && HoldsPrefix(bs, mem, table, tokens, start + bs) && start + bs <= |tokens| && o < bs
    ensures i < |table| && table[i] < |mem| && o < |mem[table[i]]| && mem[table[i]][o] == Good(tokens[..start + o + 1])
  {
    assert SlotRight(bs, mem, table, tokens, i, o);
  }

  lemma TakeTake(s: seq<Token>, n: nat, m: nat)
    requires m <= n <= |s|
    ensures s[..n][..m] == s[..m]
  {
  }

  lemma ChainIds(c: Config, tokens: seq<Token>, i: nat)
    requires ValidConfig(c) && i < |Chain(0, c.blockSize, tokens, c.seed)|
    ensures (i + 1) * c.blockSize <= |tokens|
    ensures Chain(0, c.blockSize, tokens, c.seed)[i] == BlockId(0, c.blockSize, tokens, c.seed, i)
  {
    InBlocks(c.blockSize, |tokens|, i);
  }

  // The pages a load copies, and where to.
  ghost predicate LoadPlan(c: Config, s: State, r: Request, table: seq<nat>)
    requires ValidConfig(c) && RequestRight(c, s.mem, r)
  {
    var hbm, total, ids := r.meta.hbmHitBlockNum, r.meta.totalHitBlockNum, r.meta.ucmBlockIds;
    && NoDuplicates(table) && (forall b :: b in table ==> b < |s.mem|)
    && total <= |table|
    && HoldsPrefix(c.blockSize, s.mem, table, r.tokens, hbm * c.blockSize)
    && forall i :: hbm <= i < total ==> RankKey(c.rank, c.isMla, ids[i]) in s.store
  }

  // The hit of a request, with the blocks of its table.
  function HitOf(r: Request, table: seq<nat>): Transfer
    requires r.meta.hbmHitBlockNum <= r.meta.totalHitBlockNum <= |r.meta.ucmBlockIds| && r.meta.totalHitBlockNum <= |table|
  {
    Transfer(r.meta.ucmBlockIds[r.meta.hbmHitBlockNum..r.meta.totalHitBlockNum],
             table[r.meta.hbmHitBlockNum..r.meta.totalHitBlockNum])
  }

  // A page is right for an id exactly when it is for this rank's key of it.
  lemma KeyedPage(c: Config, id: Hash, page: Page)
    ensures PageRight(c.blockSize, RankKey(c.rank, c.isMla, id), page) <==> PageRight(c.blockSize, id, page)
  {
  }

  lemma LoadedPagesAreWhole(c: Config, s: State, r: Request, table: seq<nat>, mem': seq<Page>)
    requires ValidConfig(c) && Inv(c, s) && RequestRight(c, s.mem, r) && LoadPlan(c, s, r, table) && |mem'| == |s.mem|
    requires var load := Keyed(c, HitOf(r, table));
             && (forall k :: 0 <= k < |load.ids| ==>
                   load.ids[k] in s.store && load.blocks[k] < |mem'| && mem'[load.blocks[k]] == s.store[load.ids[k]])
             && forall b :: 0 <= b < |s.mem| && b !in load.blocks ==> mem'[b] == s.mem[b]
    ensures Paged(c.blockSize, mem')
  {
    var load := Keyed(c, HitOf(r, table));
    forall b | 0 <= b < |mem'| ensures |mem'[b]| == c.blockSize {
      if b in load.blocks {
        var k :| 0 <= k < |load.blocks| && load.blocks[k] == b;
        HitPage(c, s, r, table, k);
      }
    }
  }

  // The store's page for a key of the hit is right.
  lemma HitPage(c: Config, s: State, r: Request, table: seq<nat>, k: nat)
    requires ValidConfig(c) && Inv(c, s) && RequestRight(c, s.mem, r) && r.meta.totalHitBlockNum <= |table|
    requires var load := Keyed(c, HitOf(r, table)); k < |load.ids| && load.ids[k] in s.store
    ensures var load := Keyed(c, HitOf(r, table)); PageRight(c.blockSize, load.ids[k], s.store[load.ids[k]])
  {
    ChainIds(c, r.tokens, r.meta.hbmHitBlockNum + k);
    var id := HitOf(r, table).ids[k];
    assert id == r.meta.ucmBlockIds[r.meta.hbmHitBlockNum + k];
    assert OwnKey(c, RankKey(c.rank, c.isMla, id));
  }

  // A load puts the KV of the request's own prefix into each block it fills.
  lemma LoadGivesOwnPrefix(c: Config, s: State, r: Request, table: seq<nat>, mem': seq<Page>)
    requires ValidConfig(c) && Inv(c, s) && RequestRight(c, s.mem, r) && LoadPlan(c, s, r, table)
    requires |mem'| == |s.mem|
    requires forall i :: r.meta.hbmHitBlockNum <= i < r.meta.totalHitBlockNum ==>
               table[i] < |mem'| && mem'[table[i]] == s.store[RankKey(c.rank, c.isMla, r.meta.ucmBlockIds[i])]
    requires forall b :: 0 <= b < |s.mem| && b !in table[r.meta.hbmHitBlockNum..r.meta.totalHitBlockNum] ==> mem'[b] == s.mem[b]
    ensures HoldsPrefix(c.blockSize, mem', table, r.tokens, r.meta.totalHitBlockNum * c.blockSize)
  {
    var bs, hbm, total := c.blockSize, r.meta.hbmHitBlockNum, r.meta.totalHitBlockNum;
    forall i: nat, o: nat | o < bs && i * bs + o < total * bs ensures SlotRight(bs, mem', table, r.tokens, i, o) {
      BlockBelow(bs, i, o, total);
      if i < hbm {
        MulMonotone(i + 1, hbm, bs);
        assert i * bs + o < hbm * bs;
        assert SlotRight(bs, s.mem, table, r.tokens, i, o);
        assert table[i] !in table[hbm..total];
      } else {
        ChainIds(c, r.tokens, i);
        KeyedPage(c, r.meta.ucmBlockIds[i], mem'[table[i]]);
        PageBecomesSlots(c, r, mem', table, i);
      }
    }
  }

  lemma BlockBelow(bs: nat, i: nat, o: nat, n: nat)
    requires i * bs + o < n * bs
    ensures i < n
  {
    if n <= i { MulMonotone(n, i, bs); }
  }

  lemma LoadSlices(c: Config, r: Request, vllm: seq<nat>, newTokens: nat, needLoad: bool)
    requires ValidConfig(c) && r.meta.hbmHitBlockNum <= r.meta.totalHitBlockNum <= |r.meta.ucmBlockIds|
    requires needLoad ==> r.meta.vllmBlockIds == [] && r.meta.totalHitBlockNum <= |vllm|
    ensures var m := r.meta;
            Dispatch(c.blockSize, m, newTokens, vllm, needLoad).1.load ==
            if needLoad then Transfer(m.ucmBlockIds[m.hbmHitBlockNum..m.totalHitBlockNum],
                                      (m.vllmBlockIds + vllm)[m.hbmHitBlockNum..m.totalHitBlockNum])
            else Transfer([], [])
  {
    assert needLoad ==> [] + vllm == vllm;
  }

  lemma PendingAfterDispatch(c: Config, r: Request, newTokens: nat, vllm: seq<nat>, needLoad: bool, valid: nat)
    requires ValidConfig(c) && r.pending.None?
    requires r.meta.numTokenIds == |r.tokens| && |r.meta.ucmBlockIds| == BlocksIn(|r.tokens|, c.blockSize)
    requires Min(r.meta.tokenProcessed, |r.tokens|) <= valid
    requires r.meta.tokenProcessed < r.meta.numTokenIds ==>
               BlocksIn(r.meta.tokenProcessed + newTokens, c.blockSize) <= |r.meta.vllmBlockIds + vllm|
    ensures var d := Dispatch(c.blockSize, r.meta, newTokens, vllm, needLoad);
            && PendingRight(c, Request(r.tokens, d.0, valid,
                                       Some(Pending(r.meta.tokenProcessed, newTokens, d.1.dump))))
            && d.0 == r.meta.(vllmBlockIds := r.meta.vllmBlockIds + vllm, tokenProcessed := d.0.tokenProcessed)
  {
    if r.meta.tokenProcessed < r.meta.numTokenIds {
      DispatchDumpsWindow(c.blockSize, r.meta, newTokens, vllm, needLoad);
    }
  }

  lemma HoldsLongerTable(bs: nat, mem: seq<Page>, table: seq<nat>, more: seq<nat>, tokens: seq<Token>, upTo: nat)
    requires HoldsPrefix(bs, mem, table, tokens, upTo)
    ensures HoldsPrefix(bs, mem, table + more, tokens, upTo)
  {
    forall i: nat, o: nat | o < bs && i * bs + o < upTo ensures SlotRight(bs, mem, table + more, tokens, i, o) {
      assert SlotRight(bs, mem, table, tokens, i, o);
    }
  }

  lemma LoadTouchesUnclaimed(bs: nat, s: State, load: Transfer, mem': seq<Page>)
    requires Loadable(bs, s, load) && |mem'| == |s.mem| && Paged(bs, mem')
    requires forall b :: 0 <= b < |s.mem| && b !in load.blocks ==> mem'[b] == s.mem[b]
    ensures Untouched(bs, s, mem')
  {
    forall b, o | 0 <= b < |s.mem| && 0 <= o < bs && o < |s.mem[b]| && mem'[b][o] != s.mem[b][o]
      ensures !Claimed(bs, s, b, o)
    {
      assert b in load.blocks;
      var k :| 0 <= k < |load.blocks| && load.blocks[k] == b;
      assert !Claimed(bs, s, load.blocks[k], o);
    }
  }

  // Loading the whole hit makes its tokens valid and leaves other blocks alone.
  lemma HitIsLoaded(c: Config, s: State, r: Request, table: seq<nat>, load: Transfer, mem': seq<Page>)
    requires ValidConfig(c) && Inv(c, s) && RequestRight(c, s.mem, r) && Loadable(c.blockSize, s, load)
    requires NoDuplicates(table) && (forall b :: b in table ==> b < |s.mem|) && r.meta.totalHitBlockNum <= |table|
    requires HoldsPrefix(c.blockSize, s.mem, table, r.tokens, r.meta.hbmHitBlockNum * c.blockSize)
    requires load == Keyed(c, HitOf(r, table))
    requires mem' == LoadPages(s.mem, s.store, load.ids, load.blocks)
    ensures |mem'| == |s.mem| && Paged(c.blockSize, mem')
    ensures forall b :: 0 <= b < |s.mem| && b !in load.blocks ==> mem'[b] == s.mem[b]
    ensures r.meta.totalHitBlockNum * c.blockSize <= |r.tokens|
    ensures HoldsPrefix(c.blockSize, mem', table, r.tokens, r.meta.totalHitBlockNum * c.blockSize)
  {
    HitPages(c, s.mem, s.store, r, table, load, mem');
    LoadedPagesAreWhole(c, s, r, table, mem');
    LoadGivesOwnPrefix(c, s, r, table, mem');
    BlocksInBounds(|r.tokens|, c.blockSize);
    MulMonotone(r.meta.totalHitBlockNum, BlocksIn(|r.tokens|, c.blockSize), c.blockSize);
  }

  lemma HitPages(c: Config, mem: seq<Page>, store: map<Hash, Page>, r: Request, table: seq<nat>, load: Transfer, mem': seq<Page>)
    requires r.meta.hbmHitBlockNum <= r.meta.totalHitBlockNum <= |r.meta.ucmBlockIds| && r.meta.totalHitBlockNum <= |table|
    requires NoDuplicates(table) && load == Keyed(c, HitOf(r, table))
    requires forall k :: 0 <= k < |load.ids| ==> load.ids[k] in store && load.blocks[k] < |mem|
    requires mem' == LoadPages(mem, store, load.ids, load.blocks)
    ensures |mem'| == |mem|
    ensures forall i :: r.meta.hbmHitBlockNum <= i < r.meta.totalHitBlockNum ==>
              var key := RankKey(c.rank, c.isMla, r.meta.ucmBlockIds[i]);
              key in store && table[i] < |mem'| && mem'[table[i]] == store[key]
    ensures forall k :: 0 <= k < |load.ids| ==> mem'[load.blocks[k]] == store[load.ids[k]]
    ensures forall b :: 0 <= b < |mem| && b !in load.blocks ==> mem'[b] == mem[b]
  {
    var hbm, total := r.meta.hbmHitBlockNum, r.meta.totalHitBlockNum;
    LoadPagesSpec(mem, store, load.ids, load.blocks);
    forall i | hbm <= i < total
      ensures var key := RankKey(c.rank, c.isMla, r.meta.ucmBlockIds[i]);
              key in store && table[i] < |mem'| && mem'[table[i]] == store[key]
    {
      HitEntry(c, r, table, load, i - hbm);
    }
  }

  // Entry k of the load of a hit.
  lemma HitEntry(c: Config, r: Request, table: seq<nat>, load: Transfer, k: nat)
    requires r.meta.hbmHitBlockNum <= r.meta.totalHitBlockNum <= |r.meta.ucmBlockIds| && r.meta.totalHitBlockNum <= |table|
    requires load == Keyed(c, HitOf(r, table)) && k < r.meta.totalHitBlockNum - r.meta.hbmHitBlockNum
    ensures |load.ids| == |load.blocks| == r.meta.totalHitBlockNum - r.meta.hbmHitBlockNum
    ensures load.ids[k] == RankKey(c.rank, c.isMla, r.meta.ucmBlockIds[r.meta.hbmHitBlockNum + k])
    ensures load.blocks[k] == table[r.meta.hbmHitBlockNum + k]
  {
    assert HitOf(r, table).ids[k] == r.meta.ucmBlockIds[r.meta.hbmHitBlockNum + k];
  }

  lemma ScheduledKeepsInv(c: Config, s: State, id: nat, newTokens: nat, vllm: seq<nat>, needLoad: bool, s': State)
    requires ValidConfig(c) && Inv(c, s) && id in s.live && s.live[id].pending.None?
    requires ScheduledStep(c, s, id, newTokens, vllm, needLoad, s')
    ensures Inv(c, s')
  {
    var r, bs := s.live[id], c.blockSize;
    var m := r.meta;
    var table := m.vllmBlockIds + vllm;
    var load := Keyed(c, Dispatch(bs, m, newTokens, vllm, needLoad).1.load);
    LoadSlices(c, r, vllm, newTokens, needLoad);
    var valid := if needLoad then m.totalHitBlockNum * bs else r.valid;
    if needLoad {
      HitIsLoaded(c, s, r, table, load, s'.mem);
    } else {
      HoldsLongerTable(bs, s.mem, m.vllmBlockIds, vllm, r.tokens, r.valid);
    }
    LoadTouchesUnclaimed(bs, s, load, s'.mem);
    UntouchedKeepsOthers(c, s, s'.mem);
    PendingAfterDispatch(c, r, newTokens, vllm, needLoad, valid);
  }

  // ------------------------------------------------------- computing is right

  // Computing from a valid prefix makes everything up to the end valid, and
  // changes no slot outside the newly computed positions.
  lemma {:induction false} ComputeExtends(bs: nat, mem: seq<Page>, table: seq<nat>, tokens: seq<Token>,
                                          q: nat, end: nat, valid: nat)
    requires 0 < bs && end <= |tokens| && end <= |table| * bs && (q <= valid || end <= valid)
    requires Paged(bs, mem) && NoDuplicates(table) && (forall b :: b in table ==> b < |mem|)
    requires HoldsPrefix(bs, mem, table, tokens, valid)
    ensures var mem' := ComputeFrom(bs, mem, table, tokens, q, end);
            && |mem'| == |mem| && Paged(bs, mem')
            && HoldsPrefix(bs, mem', table, tokens, if valid >= end then valid else end)
            && (forall b, o: nat :: 0 <= b < |mem| && o < bs && mem'[b][o] != mem[b][o] ==>
                  exists i: nat :: i < |table| && table[i] == b && valid <= i * bs + o < end)
    decreases end - q
  {
    if q < end {
      var i, o := q / bs, q % bs;
      DivBounds(q, bs);
      if i >= |table| { MulMonotone(|table|, i, bs); assert false; }
      assert table[i] in table;
      HoldsShorter(bs, mem, table, tokens, valid, q);
      var page := mem[table[i]][o := Good(tokens[..q + 1])];
      var mem1 := mem[table[i] := page];
      if q < valid {
        assert SlotRight(bs, mem, table, tokens, i, o);
        assert page == mem[table[i]] && mem1 == mem;
        ComputeExtends(bs, mem, table, tokens, q + 1, end, valid);
      } else {
        OneMoreSlot(bs, mem, table, tokens, q, i, o);
        ComputeExtends(bs, mem1, table, tokens, q + 1, end, q + 1);
        var mem' := ComputeFrom(bs, mem, table, tokens, q, end);
        assert mem' == ComputeFrom(bs, mem1, table, tokens, q + 1, end);
        forall b, p: nat | 0 <= b < |mem| && p < bs && mem'[b][p] != mem[b][p]
          ensures exists j: nat :: j < |table| && table[j] == b && valid <= j * bs + p < end
        {
          if mem'[b][p] != mem1[b][p] {
            var j: nat :| j < |table| && table[j] == b && q + 1 <= j * bs + p < end;
          } else {
            assert b == table[i] && p == o && i * bs + o == q;
          }
        }
      }
    }
  }

  lemma HoldsShorter(bs: nat, mem: seq<Page>, table: seq<nat>, tokens: seq<Token>, upTo: nat, shorter: nat)
    requires HoldsPrefix(bs, mem, table, tokens, upTo) && shorter <= upTo
    ensures HoldsPrefix(bs, mem, table, tokens, shorter)
  {
    forall i: nat, o: nat | o < bs && i * bs + o < shorter ensures SlotRight(bs, mem, table, tokens, i, o) {
    }
  }

  lemma OneMoreSlot(bs: nat, mem: seq<Page>, table: seq<nat>, tokens: seq<Token>, q: nat, i: nat, o: nat)
    requires 0 < bs && q < |tokens| && q == i * bs + o && o < bs
    requires Paged(bs, mem) && NoDuplicates(table) && i < |table| && (forall b :: b in table ==> b < |mem|)
    requires HoldsPrefix(bs, mem, table, tokens, q)
    ensures table[i] < |mem|
    ensures HoldsPrefix(bs, mem[table[i] := mem[table[i]][o := Good(tokens[..q + 1])]], table, tokens, q + 1)
  {
    assert table[i] in table;
    var mem1 := mem[table[i] := mem[table[i]][o := Good(tokens[..q + 1])]];
    forall j: nat, p: nat | p < bs && j * bs + p < q + 1 ensures SlotRight(bs, mem1, table, tokens, j, p) {
      if j * bs + p == q {
        SamePosition(bs, i, o, j, p);
      } else {
        assert SlotRight(bs, mem, table, tokens, j, p);
        assert j == i ==> p != o;
      }
    }
  }

  lemma SamePosition(bs: nat, i: nat, o: nat, j: nat, p: nat)
    requires o < bs && p < bs && i * bs + o == j * bs + p
    ensures i == j && o == p
  {
    if i < j { MulMonotone(i + 1, j, bs); }
    if j < i { MulMonotone(j + 1, i, bs); }
  }

  lemma CompleteBlockIsPage(c: Config, r: Request, mem: seq<Page>, valid: nat, i: nat, reached: nat)
    requires ValidConfig(c) && r.meta.ucmBlockIds == Chain(0, c.blockSize, r.tokens, c.seed)
    requires Paged(c.blockSize, mem) && (forall b :: b in r.meta.vllmBlockIds ==> b < |mem|)
    requires HoldsPrefix(c.blockSize, mem, r.meta.vllmBlockIds, r.tokens, valid)
    requires reached <= valid && i < BlocksIn(reached, c.blockSize) && i < |r.meta.ucmBlockIds| && i < |r.meta.vllmBlockIds|
    ensures r.meta.vllmBlockIds[i] < |mem|
    ensures PageRight(c.blockSize, r.meta.ucmBlockIds[i], mem[r.meta.vllmBlockIds[i]])
  {
    var bs, table := c.blockSize, r.meta.vllmBlockIds;
    assert table[i] in table;
    ChainIds(c, r.tokens, i);
    BlocksInBounds(reached, bs);
    MulMonotone(i + 1, BlocksIn(reached, bs), bs);
    HoldsShorter(bs, mem, table, r.tokens, valid, (i + 1) * bs);
    SlotsBecomePage(c, r, mem, table, i);
  }

  lemma PairInWindow(c: Config, t: Transfer, ids: seq<Hash>, table: seq<nat>, start: nat, end: nat, d: (Hash, nat)) returns (i: nat)
    requires start <= end <= |ids| && end <= |table|
    requires t == Transfer(ids[start..end], table[start..end]) && d in PairsOf(Dumps(c, t))
    ensures start <= i < end && d == (RankKey(c.rank, c.isMla, ids[i]), table[i])
  {
    var u := Dumps(c, t);
    var k :| 0 <= k < |u.ids| && k < |u.blocks| && d == (u.ids[k], u.blocks[k]);
    i := start + k;
  }

  lemma DumpedPagesRight(c: Config, r: Request, mem: seq<Page>, valid: nat)
    requires ValidConfig(c) && r.pending.Some? && PendingRight(c, r)
    requires r.meta.ucmBlockIds == Chain(0, c.blockSize, r.tokens, c.seed)
    requires Paged(c.blockSize, mem) && (forall b :: b in r.meta.vllmBlockIds ==> b < |mem|)
    requires HoldsPrefix(c.blockSize, mem, r.meta.vllmBlockIds, r.tokens, valid)
    requires Min(r.pending.value.from + r.pending.value.newTokens, |r.tokens|) <= valid
    ensures forall d :: d in PairsOf(Dumps(c, r.pending.value.dump)) ==> d.1 < |mem| && PageRight(c.blockSize, d.0, mem[d.1])
  {
    var p, ids, table := r.pending.value, r.meta.ucmBlockIds, r.meta.vllmBlockIds;
    var reached := Min(p.from + p.newTokens, |r.tokens|);
    var start, end := BlocksIn(p.from, c.blockSize), BlocksIn(reached, c.blockSize);
    if p.dump != Transfer([], []) {
      forall d | d in PairsOf(Dumps(c, p.dump)) ensures d.1 < |mem| && PageRight(c.blockSize, d.0, mem[d.1]) {
        var i := PairInWindow(c, p.dump, ids, table, start, end, d);
        CompleteBlockIsPage(c, r, mem, valid, i, reached);
        KeyedPage(c, ids[i], mem[table[i]]);
      }
    }
  }

  lemma ComputedUntouched(c: Config, s: State, id: nat, s': State)
    requires ValidConfig(c) && Inv(c, s) && id in s.live && s.live[id].pending.Some?
    requires ComputedStep(c, s, id, s')
    ensures Untouched(c.blockSize, s, s'.mem)
    ensures HoldsPrefix(c.blockSize, s'.mem, s.live[id].meta.vllmBlockIds, s.live[id].tokens, s'.live[id].valid)
  {
    var r, bs := s.live[id], c.blockSize;
    var p, table := r.pending.value, r.meta.vllmBlockIds;
    var end := Min(p.from + p.newTokens, |r.tokens|);
    assert RequestRight(c, s.mem, r);
    ComputeExtends(bs, s.mem, table, r.tokens, p.from, end, r.valid);
    forall b, o | 0 <= b < |s.mem| && 0 <= o < bs && o < |s.mem[b]| && s'.mem[b][o] != s.mem[b][o]
      ensures !Claimed(bs, s, b, o)
    {
      var i: nat :| i < |table| && table[i] == b && r.valid <= i * bs + o < end;
      assert !Claimed(bs, s, table[i], o);
    }
  }

  lemma ComputedKeepsInv(c: Config, s: State, id: nat, s': State)
    requires ValidConfig(c) && Inv(c, s) && id in s.live && s.live[id].pending.Some?
    requires ComputedStep(c, s, id, s')
    ensures Inv(c, s')
  {
    var r, r' := s.live[id], s'.live[id];
    ComputedUntouched(c, s, id, s');
    UntouchedKeepsOthers(c, s, s'.mem);
    assert RequestRight(c, s'.mem, r);
    assert PendingRight(c, r) && Paged(c.blockSize, s'.mem);
    DumpedPagesRight(c, r, s'.mem, r'.valid);
    ComputedRequestRight(c, r, r', s'.mem);
    ComputedDumpsRight(c, s, Dumps(c, r.pending.value.dump), s');
  }

  lemma ComputedRequestRight(c: Config, r: Request, r': Request, mem: seq<Page>)
    requires ValidConfig(c) && r.pending.Some? && RequestRight(c, mem, r)
    requires var end := Min(r.pending.value.from + r.pending.value.newTokens, |r.tokens|);
             r' == r.(valid := if r.valid >= end then r.valid else end, pending := None)
    requires HoldsPrefix(c.blockSize, mem, r.meta.vllmBlockIds, r.tokens, r'.valid)
    ensures RequestRight(c, mem, r')
  {
  }

  lemma ComputedDumpsRight(c: Config, s: State, dump: Transfer, s': State)
    requires ValidConfig(c) && |s'.mem| == |s.mem|
    requires forall d :: d in s.dumps ==> d.1 < |s.mem| && PageRight(c.blockSize, d.0, s'.mem[d.1])
    requires forall d :: d in PairsOf(dump) ==> d.1 < |s'.mem| && PageRight(c.blockSize, d.0, s'.mem[d.1])
    requires s'.dumps == s.dumps + PairsOf(dump)
    ensures forall d :: d in s'.dumps ==> d.1 < |s'.mem| && PageRight(c.blockSize, d.0, s'.mem[d.1])
  {
    forall d | d in s'.dumps ensures d.1 < |s'.mem| && PageRight(c.blockSize, d.0, s'.mem[d.1]) {
      assert d in s.dumps || d in PairsOf(dump);
    }
  }

  // ------------------------------------------------------------- main results

  lemma MatchedKeepsInv(c: Config, s: State, id: nat, tokens: seq<Token>, computed: nat, present: Option<set<Hash>>, s': State)
    requires ValidConfig(c) && Inv(c, s) && Next(c, s, Matched(id, tokens, computed, present), s')
    ensures Inv(c, s')
  {
    MatchIsLongest(c, tokens, computed, present);
    if Match(c, tokens, computed, present).Some? {
      var r := Request(tokens, Match(c, tokens, computed, present).value.0, 0, None);
      assert HoldsPrefix(c.blockSize, s.mem, r.meta.vllmBlockIds, tokens, 0);
    }
  }

  // Every step keeps all stored pages, valid prefixes and queued dumps right.
  lemma NextKeepsInv(c: Config, s: State, e: Event, s': State)
    requires ValidConfig(c) && Inv(c, s) && Next(c, s, e, s')
    ensures Inv(c, s')
  {
    match e
    case Matched(id, tokens, computed, present) =>
      MatchedKeepsInv(c, s, id, tokens, computed, present, s');
    case Scheduled(id, newTokens, vllm, needLoad) =>
      ScheduledKeepsInv(c, s, id, newTokens, vllm, needLoad, s');
    case Computed(id) =>
      ComputedKeepsInv(c, s, id, s');
    case DumpDone(key, block) =>
      assert (key, block) in s.dumps;
    case Written(block, offset, value) =>
      assert Untouched(c.blockSize, s, s'.mem) by {
        forall b, o | 0 <= b < |s.mem| && 0 <= o < c.blockSize && o < |s.mem[b]| && s'.mem[b][o] != s.mem[b][o]
          ensures !Claimed(c.blockSize, s, b, o)
        {
          assert b == block && o == offset;
        }
      }
      UntouchedKeepsOthers(c, s, s'.mem);
    case Evicted(key) =>
    case Shared(key, page) =>
    case Released(id) =>
  }

  // A run of the system from an empty store.
  ghost predicate IsRun(c: Config, states: seq<State>, events: seq<Event>)
    requires ValidConfig(c)
  {
    && |states| == |events| + 1
    && Init(states[0]) && Paged(c.blockSize, states[0].mem)
    && forall k :: 0 <= k < |events| ==> Next(c, states[k], events[k], states[k + 1])
  }

  lemma {:induction false} RunsKeepInv(c: Config, states: seq<State>, events: seq<Event>, k: nat)
    requires ValidConfig(c) && IsRun(c, states, events) && k < |states|
    ensures Inv(c, states[k])
  {
    if k > 0 {
      RunsKeepInv(c, states, events, k - 1);
      NextKeepsInv(c, states[k - 1], events[k - 1], states[k]);
    }
  }

  // Prefix-cache soundness: in every run, on every rank, after every step that loads, each loaded
  // block of the request holds, token by token, the KV of the request's own prefix.
  lemma LoadsAreSound(c: Config, states: seq<State>, events: seq<Event>, k: nat)
    requires ValidConfig(c) && IsRun(c, states, events)
    requires k < |events| && events[k].Scheduled? && events[k].needLoad
    ensures var mem, r := states[k + 1].mem, states[k + 1].live[events[k].id];
            forall i: nat, o: nat :: i < r.meta.totalHitBlockNum && o < c.blockSize ==>
              SlotRight(c.blockSize, mem, r.meta.vllmBlockIds, r.tokens, i, o)
  {
    var mem, r := states[k + 1].mem, states[k + 1].live[events[k].id];
    assert Next(c, states[k], events[k], states[k + 1]);
    RunsKeepInv(c, states, events, k + 1);
    LoadedValid(c, states[k], events[k], states[k + 1]);
    forall i: nat, o: nat | i < r.meta.totalHitBlockNum && o < c.blockSize
      ensures SlotRight(c.blockSize, mem, r.meta.vllmBlockIds, r.tokens, i, o)
    {
      BlockInside(c.blockSize, i, o, r.meta.totalHitBlockNum);
    }
  }

  lemma BlockInside(bs: nat, i: nat, o: nat, n: nat)
    requires i < n && o < bs
    ensures i * bs + o < n * bs
  {
    MulMonotone(i + 1, n, bs);
  }

  lemma LoadedValid(c: Config, s: State, e: Event, s': State)
    requires ValidConfig(c) && Next(c, s, e, s') && e.Scheduled? && e.needLoad
    ensures e.id in s'.live
    ensures s'.live[e.id].valid == s'.live[e.id].meta.totalHitBlockNum * c.blockSize
  {
  }

  // Under the keys of a rank the store never holds anything but the KV each key stands for.
  lemma StoreIsSound(c: Config, states: seq<State>, events: seq<Event>, k: nat, key: Hash)
    requires ValidConfig(c) && IsRun(c, states, events) && k < |states| && key in states[k].store && OwnKey(c, key)
    ensures PageRight(c.blockSize, key, states[k].store[key])
  {
    RunsKeepInv(c, states, events, k);
  }
}
