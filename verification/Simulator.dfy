/**
 The simulation loop itself: it mutates the caches and the request groups record by
 record and is proved to compute exactly the runs and groups of the specification.
 */
module Simulator {
  import opened Wrappers
  import opened Lru
  import opened Tiers
  import opened TraceRuns
  import opened TierShares
  import opened RequestGroups

  datatype Stats = Stats(tokens: Tokens, hitRate: real, lifetimes: seq<real>)

  function Rate(numerator: nat, denominator: nat): real {
    if denominator == 0 then 0.0 else numerator as real / denominator as real
  }

  // The share of a part in a whole; 0 of nothing.
  ghost predicate IsRate(rate: real, part: nat, whole: nat) {
    && rate * whole as real == part as real
    && 0.0 <= rate <= 1.0 && (whole == 0 ==> rate == 0.0)
  }

  lemma RateIsShare(part: nat, whole: nat)
    requires part <= whole
    ensures IsRate(Rate(part, whole), part, whole)
  {
  }

  function Producers(hits: seq<CacheHit>): (p: seq<nat>)
    ensures |p| == |hits| && forall i :: 0 <= i < |hits| ==> p[i] == hits[i].producer
  {
    seq(|hits|, i requires 0 <= i < |hits| => hits[i].producer)
  }

  // Each record that hits is grouped with the records that produced its hits.
  ghost function RunUnions(caps: Capacities, nodes: nat, records: seq<TraceRecord>, nodeOf: seq<nat>): seq<seq<nat>>
    requires Assigned(nodes, records, nodeOf)
  {
    if records == [] then []
    else
      var k := |records| - 1;
      var hits := LastHits(caps, nodes, records, nodeOf);
      RunUnions(caps, nodes, records[..k], nodeOf[..k]) + (if hits == [] then [] else [[k] + Producers(hits)])
  }

  ghost function RunHits(caps: Capacities, nodes: nat, records: seq<TraceRecord>, nodeOf: seq<nat>): seq<Hit>
    requires Assigned(nodes, records, nodeOf)
  {
    if records == [] then []
    else
      var k := |records| - 1;
      var hits := LastHits(caps, nodes, records, nodeOf);
      RunHits(caps, nodes, records[..k], nodeOf[..k]) + (if hits == [] then [] else [Hit(k, records[k].timestamp)])
  }

  // The hits of record k.
  ghost function HitsOf(caps: Capacities, nodes: nat, records: seq<TraceRecord>, nodeOf: seq<nat>, k: nat): seq<CacheHit>
    requires Assigned(nodes, records, nodeOf) && k < |records|
  {
    LastHits(caps, nodes, records[..k + 1], nodeOf[..k + 1])
  }

  lemma HitsOfTaken(caps: Capacities, nodes: nat, records: seq<TraceRecord>, nodeOf: seq<nat>, k: nat)
    requires Assigned(nodes, records, nodeOf) && k < |records|
    ensures var n := |records| - 1;
            && (k < n ==> HitsOf(caps, nodes, records[..n], nodeOf[..n], k) == HitsOf(caps, nodes, records, nodeOf, k))
            && (k == n ==> HitsOf(caps, nodes, records, nodeOf, k) == LastHits(caps, nodes, records, nodeOf))
  {
    var n := |records| - 1;
    if k < n {
      assert records[..n][..k + 1] == records[..k + 1] && nodeOf[..n][..k + 1] == nodeOf[..k + 1];
    } else {
      assert records[..k + 1] == records && nodeOf[..k + 1] == nodeOf;
    }
  }

  // Exactly the records that hit are in the history, each at its own time.
  lemma {:induction false} RunHitsMeaning(caps: Capacities, nodes: nat, records: seq<TraceRecord>, nodeOf: seq<nat>, h: Hit)
    requires Assigned(nodes, records, nodeOf)
    ensures h in RunHits(caps, nodes, records, nodeOf) <==>
            h.member < |records| && HitsOf(caps, nodes, records, nodeOf, h.member) != [] && h.at == records[h.member].timestamp
  {
    if records != [] {
      var n := |records| - 1;
      RunHitsMeaning(caps, nodes, records[..n], nodeOf[..n], h);
      if h.member <= n {
        HitsOfTaken(caps, nodes, records, nodeOf, h.member);
      }
    }
  }

  // Exactly the records that hit are grouped, each with the producers of its hits.
  lemma {:induction false} RunUnionsMeaning(caps: Capacities, nodes: nat, records: seq<TraceRecord>, nodeOf: seq<nat>,
                                            member: nat, others: seq<nat>)
    requires Assigned(nodes, records, nodeOf)
    ensures [member] + others in RunUnions(caps, nodes, records, nodeOf) <==>
            member < |records| && HitsOf(caps, nodes, records, nodeOf, member) != [] &&
            others == Producers(HitsOf(caps, nodes, records, nodeOf, member))
  {
    if records != [] {
      var n := |records| - 1;
      RunUnionsMeaning(caps, nodes, records[..n], nodeOf[..n], member, others);
      SameUnion(member, others, n, Producers(LastHits(caps, nodes, records, nodeOf)));
      if member <= n {
        HitsOfTaken(caps, nodes, records, nodeOf, member);
      }
    }
  }

  lemma SameUnion(a: nat, s: seq<nat>, b: nat, t: seq<nat>)
    ensures [a] + s == [b] + t <==> a == b && s == t
  {
    if [a] + s == [b] + t {
      assert ([a] + s)[0] == a && ([b] + t)[0] == b && ([a] + s)[1..] == s && ([b] + t)[1..] == t;
    }
  }

  ghost function Starts(records: seq<TraceRecord>): seq<real> {
    seq(|records|, i requires 0 <= i < |records| => records[i].timestamp)
  }

  ghost predicate Holds(gpu: LRUCache, dram: LRUCache, fs: LRUCache, caps: Capacities, v: View)
    reads gpu, dram, fs
  {
    && gpu.Valid() && dram.Valid() && fs.Valid()
    && gpu.capacity == caps.gpu && dram.capacity == caps.dram && fs.capacity == caps.fs
    && v == View(gpu.items, dram.items, fs.items)
  }

  // Looks one block up, tier by tier, promoting what it finds in a lower tier.
  method LookUp(gpu: LRUCache, dram: LRUCache, fs: LRUCache, key: BlockId, available: bool,
                ghost caps: Capacities, ghost w: Walk)
      returns (hit: Option<CacheHit>)
    requires gpu != dram && gpu != fs && dram != fs
    requires Holds(gpu, dram, fs, caps, w.view) && available == w.available
    modifies gpu, dram, fs
    ensures Holds(gpu, dram, fs, caps, Step(caps, w, key).view)
    ensures Step(caps, w, key).hits == w.hits + (if hit.Some? then [hit.value] else [])
    ensures Step(caps, w, key).available == hit.Some?
  {
    if !available {
      return None;
    }
    var gpuEntry := gpu.Get(key);
    if gpuEntry.Some? {
      return Some(CacheHit(Gpu, gpuEntry.value));
    }
    var dramEntry := dram.Get(key);
    if dramEntry.Some? {
      gpu.Put(key, dramEntry.value);
      return Some(CacheHit(Dram, dramEntry.value));
    }
    var fsEntry := fs.Get(key);
    if fsEntry.Some? {
      dram.Put(key, fsEntry.value);
      gpu.Put(key, fsEntry.value);
      return Some(CacheHit(Fs, fsEntry.value));
    }
    return None;
  }

  // The write-through at the end of a record.
  method WriteThrough(gpu: LRUCache, dram: LRUCache, fs: LRUCache, keys: seq<BlockId>, producer: nat,
                      ghost caps: Capacities, ghost v: View)
    requires gpu != dram && gpu != fs && dram != fs
    requires Holds(gpu, dram, fs, caps, v)
    modifies gpu, dram, fs
    ensures Holds(gpu, dram, fs, caps, Write(caps, v, keys, producer))
  {
    for i := 0 to |keys|
      invariant Holds(gpu, dram, fs, caps, Write(caps, v, keys[..i], producer))
    {
      assert keys[..i + 1][..i] == keys[..i];
      fs.Put(keys[i], producer);
      dram.Put(keys[i], producer);
      gpu.Put(keys[i], producer);
    }
    assert keys[..|keys|] == keys;
  }

  method ListOf(s: set<nat>) returns (l: seq<nat>)
    ensures forall x :: x in l <==> x in s
  {
    l := [];
    var rest := s;
    while rest != {}
      invariant rest <= s
      invariant forall x :: x in l <==> x in s - rest
      decreases rest
    {
      var x :| x in rest;
      rest := rest - {x};
      l := l + [x];
    }
  }

  lemma WalkNext(caps: Capacities, v: View, keys: seq<BlockId>, i: nat)
    requires i < |keys|
    ensures WalkBlocks(caps, v, keys[..i + 1]) == Step(caps, WalkBlocks(caps, v, keys[..i]), keys[i])
  {
    assert keys[..i + 1][..i] == keys[..i];
  }

  ghost predicate ProducersBelow(hits: seq<CacheHit>, n: nat) {
    forall i :: 0 <= i < |hits| ==> hits[i].producer < n
  }

  ghost function RootsOf(classOf: seq<nat>, hits: seq<CacheHit>): set<nat>
    requires ProducersBelow(hits, |classOf|)
  {
    set i | 0 <= i < |hits| :: classOf[hits[i].producer]
  }

  lemma RootsNext(classOf: seq<nat>, hits: seq<CacheHit>, h: CacheHit)
    requires ProducersBelow(hits, |classOf|) && h.producer < |classOf|
    ensures RootsOf(classOf, hits + [h]) == RootsOf(classOf, hits) + {classOf[h.producer]}
  {
    var more := hits + [h];
    assert forall i :: 0 <= i < |hits| ==> more[i] == hits[i];
    assert more[|hits|] == h;
  }

  function Credit(t: Tokens, tier: Tier, weight: nat): Tokens {
    match tier
    case Gpu => t.(gpu := t.gpu + weight)
    case Dram => t.(dram := t.dram + weight)
    case Fs => t.(fs := t.fs + weight)
  }

  // The counters after the first `upTo` blocks of a record, of which `hits` hit.
  ghost function Counted(t: Tokens, weights: seq<nat>, hits: seq<CacheHit>, upTo: nat): Tokens
    requires |hits| <= upTo <= |weights|
  {
    Tokens(t.total, t.gpu + TierTokens(hits, weights, Gpu), t.dram + TierTokens(hits, weights, Dram),
           t.fs + TierTokens(hits, weights, Fs), t.miss + MissTokens(weights, |hits|, upTo))
  }

  lemma CountedHit(t: Tokens, weights: seq<nat>, hits: seq<CacheHit>, h: CacheHit)
    requires |hits| < |weights|
    ensures Counted(t, weights, hits + [h], |hits| + 1) ==
            Credit(Counted(t, weights, hits, |hits|), h.tier, weights[|hits|])
  {
    assert (hits + [h])[..|hits|] == hits;
  }

  // Counts one block of a record.
  method CountBlock(gpu: LRUCache, dram: LRUCache, fs: LRUCache, groups: RequestGroups, key: BlockId, weights: seq<nat>, i: nat,
                    available: bool, counted: Tokens, hitRoots: set<nat>, ghost tokens: Tokens, ghost caps: Capacities, ghost w: Walk)
      returns (found: bool, counted': Tokens, hitRoots': set<nat>)
    requires gpu != dram && gpu != fs && dram != fs && i < |weights|
    requires Holds(gpu, dram, fs, caps, w.view) && groups.Linked() && available == w.available
    requires |w.hits| <= i && (w.available ==> |w.hits| == i)
    requires ProducersBelow(w.hits, |groups.classOf|) && ProducersBelow(Step(caps, w, key).hits, |groups.classOf|)
    requires hitRoots == RootsOf(groups.classOf, w.hits) && counted == Counted(tokens, weights, w.hits, i)
    modifies gpu, dram, fs, groups`parent
    ensures groups.Linked() && Holds(gpu, dram, fs, caps, Step(caps, w, key).view) && found == Step(caps, w, key).available
    ensures var hits := Step(caps, w, key).hits;
            && |hits| <= i + 1 && (found ==> |hits| == i + 1)
            && hitRoots' == RootsOf(groups.classOf, hits) && counted' == Counted(tokens, weights, hits, i + 1)
  {
    counted', hitRoots' := counted, hitRoots;
    var hit := LookUp(gpu, dram, fs, key, available, caps, w);
    found := hit.Some?;
    if found {
      assert Step(caps, w, key).hits[|w.hits|] == hit.value;
      RootsNext(groups.classOf, w.hits, hit.value);
      CountedHit(tokens, weights, w.hits, hit.value);
      var root := groups.Find(hit.value.producer);
      hitRoots' := hitRoots + {root};
      counted' := Credit(counted, hit.value.tier, weights[i]);
    } else {
      counted' := counted.(miss := counted.miss + weights[i]);
    }
  }

  // What has been counted after the first blocks of a record.
  ghost predicate CountedTo(caps: Capacities, v: View, ids: seq<BlockId>, i: nat, weights: seq<nat>, tokens: Tokens,
                            classOf: seq<nat>, available: bool, counted: Tokens, hitRoots: set<nat>)
    requires i <= |ids| == |weights|
  {
    var w := WalkBlocks(caps, v, ids[..i]);
    && available == w.available && |w.hits| <= i && (w.available ==> |w.hits| == i)
    && ProducersBelow(w.hits, |classOf|)
    && hitRoots == RootsOf(classOf, w.hits) && counted == Counted(tokens, weights, w.hits, i)
  }

  method CountNext(gpu: LRUCache, dram: LRUCache, fs: LRUCache, groups: RequestGroups, ids: seq<BlockId>, weights: seq<nat>, i: nat,
                   available: bool, counted: Tokens, hitRoots: set<nat>, ghost tokens: Tokens, ghost caps: Capacities, ghost v: View)
      returns (found: bool, counted': Tokens, hitRoots': set<nat>)
    requires gpu != dram && gpu != fs && dram != fs && i < |ids| == |weights|
    requires Holds(gpu, dram, fs, caps, WalkBlocks(caps, v, ids[..i]).view) && groups.Linked()
    requires forall x :: InView(v, x) ==> x.producer < |groups.classOf|
    requires CountedTo(caps, v, ids, i, weights, tokens, groups.classOf, available, counted, hitRoots)
    modifies gpu, dram, fs, groups`parent
    ensures Holds(gpu, dram, fs, caps, WalkBlocks(caps, v, ids[..i + 1]).view) && groups.Linked()
    ensures CountedTo(caps, v, ids, i + 1, weights, tokens, groups.classOf, found, counted', hitRoots')
  {
    ghost var w := WalkBlocks(caps, v, ids[..i]);
    WalkNext(caps, v, ids, i);
    WalkHitsInside(caps, v, ids[..i + 1]);
    found, counted', hitRoots' :=
      CountBlock(gpu, dram, fs, groups, ids[i], weights, i, available, counted, hitRoots, tokens, caps, w);
  }

  // Counts the hits of one record and collects the groups that produced them.
  method CountHits(gpu: LRUCache, dram: LRUCache, fs: LRUCache, groups: RequestGroups, record: TraceRecord,
                   tokens: Tokens, ghost caps: Capacities, ghost v: View)
      returns (counted: Tokens, hitRoots: set<nat>)
    requires gpu != dram && gpu != fs && dram != fs
    requires Holds(gpu, dram, fs, caps, v) && groups.Linked()
    requires forall x :: InView(v, x) ==> x.producer < |groups.classOf|
    modifies gpu, dram, fs, groups`parent
    ensures groups.Linked()
    ensures var w, n := WalkBlocks(caps, v, record.hashIds), |record.hashIds|;
            && Holds(gpu, dram, fs, caps, w.view)
            && ProducersBelow(w.hits, |groups.classOf|)
            && hitRoots == RootsOf(groups.classOf, w.hits)
            && counted == Counted(tokens, BlockWeights(record.inputLength, n), w.hits, n)
  {
    var ids := record.hashIds;
    var weights := BlockWeights(record.inputLength, |ids|);
    var available := true;
    counted, hitRoots := tokens, {};
    for i := 0 to |ids|
      invariant groups.Linked()
      invariant Holds(gpu, dram, fs, caps, WalkBlocks(caps, v, ids[..i]).view)
      invariant CountedTo(caps, v, ids, i, weights, tokens, groups.classOf, available, counted, hitRoots)
    {
      available, counted, hitRoots :=
        CountNext(gpu, dram, fs, groups, ids, weights, i, available, counted, hitRoots, tokens, caps, v);
    }
    assert ids[..|ids|] == ids;
  }

  // The roots found while counting stand for the same classes as the producers.
  lemma SameClasses(groups: RequestGroups, requestIndex: nat, listed: seq<nat>, hits: seq<CacheHit>)
    requires groups.Linked() && requestIndex < |groups.classOf|
    requires ProducersBelow(hits, |groups.classOf|)
    requires forall x :: x in listed <==> x in RootsOf(groups.classOf, hits)
    ensures groups.InRange([requestIndex] + listed) && groups.InRange([requestIndex] + Producers(hits))
    ensures groups.ClassesOf([requestIndex] + listed) == groups.ClassesOf([requestIndex] + Producers(hits))
  {
    var roots, members := [requestIndex] + listed, [requestIndex] + Producers(hits);
    forall i | 0 <= i < |listed| ensures listed[i] < |groups.classOf| && groups.classOf[listed[i]] == listed[i] {
      assert listed[i] in listed;
      var h :| 0 <= h < |hits| && listed[i] == groups.classOf[hits[h].producer];
      assert Node(groups.parent, groups.classOf, groups.height, hits[h].producer);
    }
    assert groups.InRange(roots) && groups.InRange(members);
    forall c | c in groups.ClassesOf(roots) ensures c in groups.ClassesOf(members) {
      var j :| 0 <= j < |roots| && c == groups.classOf[roots[j]];
      if j == 0 {
        assert members[0] == requestIndex;
      } else {
        assert c == listed[j - 1] && listed[j - 1] in listed;
        var h :| 0 <= h < |hits| && c == groups.classOf[hits[h].producer];
        assert members[h + 1] == hits[h].producer;
      }
    }
    forall c | c in groups.ClassesOf(members) ensures c in groups.ClassesOf(roots) {
      var j :| 0 <= j < |members| && c == groups.classOf[members[j]];
      if j == 0 {
        assert roots[0] == requestIndex;
      } else {
        assert members[j] == hits[j - 1].producer && c in RootsOf(groups.classOf, hits);
        var i :| 0 <= i < |listed| && listed[i] == c;
        assert roots[i + 1] == c;
      }
    }
  }

  lemma MergeKeepsTimely(classOf: seq<nat>, start: seq<real>, hits: seq<Hit>, group: set<nat>, root: nat)
    requires Timely(classOf, start, hits)
    requires root < |classOf| && forall r :: r in group ==> r < |classOf| && start[root] <= start[r]
    ensures Timely(Merged(classOf, group, root), start, hits)
  {
  }

  // Groups a record that hit with the requests that produced the blocks.
  method GroupRequest(groups: RequestGroups, requestIndex: nat, timestamp: real, hitRoots: set<nat>,
                      ghost hits: seq<CacheHit>)
    requires groups.Valid() && requestIndex < |groups.classOf|
    requires ProducersBelow(hits, |groups.classOf|) && hitRoots == RootsOf(groups.classOf, hits)
    requires groups.firstTimestamp[requestIndex] <= timestamp
    requires Timely(groups.classOf, groups.firstTimestamp, groups.hits)
    modifies groups
    ensures groups.Valid() && |groups.classOf| == old(|groups.classOf|)
    ensures groups.firstTimestamp == old(groups.firstTimestamp)
    ensures groups.unions == old(groups.unions) + (if hits == [] then [] else [[requestIndex] + Producers(hits)])
    ensures groups.hits == old(groups.hits) + (if hits == [] then [] else [Hit(requestIndex, timestamp)])
    ensures Timely(groups.classOf, groups.firstTimestamp, groups.hits)
  {
    assert hits != [] ==> groups.classOf[hits[0].producer] in hitRoots;
    if hitRoots == {} {
      return;
    }
    var listed := ListOf(hitRoots);
    ghost var members := [requestIndex] + Producers(hits);
    ghost var before := groups.classOf;
    SameClasses(groups, requestIndex, listed, hits);
    ghost var classes := groups.ClassesOf([requestIndex] + listed);
    assert groups.classOf[requestIndex] in classes by { assert ([requestIndex] + listed)[0] == requestIndex; }
    var root := groups.UnionRoots([requestIndex] + listed, members);
    MergeKeepsTimely(before, groups.firstTimestamp, groups.hits, classes, root.value);
    assert groups.classOf[requestIndex] == root.value;
    groups.RecordHit(root.value, timestamp, requestIndex);
  }

  lemma CountedIsRecord(t: Tokens, record: TraceRecord, hits: seq<CacheHit>)
    requires |hits| <= |record.hashIds|
    ensures var n, length := |record.hashIds|, record.inputLength;
            t.Plus(RecordTokens(record, hits)) ==
            if n == 0 then t.(total := t.total + length, miss := t.miss + length)
            else Counted(t.(total := t.total + length), BlockWeights(length, n), hits, n)
  {
  }

  // One record: count its hits, group it, write it through.
  method ServeRecord(gpu: LRUCache, dram: LRUCache, fs: LRUCache, groups: RequestGroups, record: TraceRecord,
                     tokens: Tokens, ghost caps: Capacities, ghost v: View)
      returns (counted: Tokens)
    requires gpu != dram && gpu != fs && dram != fs
    requires Holds(gpu, dram, fs, caps, v) && groups.Valid()
    requires Timely(groups.classOf, groups.firstTimestamp, groups.hits)
    requires forall x :: InView(v, x) ==> x.producer < |groups.classOf|
    modifies gpu, dram, fs, groups
    ensures groups.Valid() && |groups.classOf| == old(|groups.classOf|) + 1
    ensures Timely(groups.classOf, groups.firstTimestamp, groups.hits)
    ensures groups.firstTimestamp == old(groups.firstTimestamp) + [record.timestamp]
    ensures var index, w := old(|groups.classOf|), WalkBlocks(caps, v, record.hashIds);
            && Holds(gpu, dram, fs, caps, Write(caps, w.view, record.hashIds, index))
            && counted == tokens.Plus(RecordTokens(record, w.hits))
            && groups.unions == old(groups.unions) + (if w.hits == [] then [] else [[index] + Producers(w.hits)])
            && groups.hits == old(groups.hits) + (if w.hits == [] then [] else [Hit(index, record.timestamp)])
  {
    var requestIndex := groups.Add(record.timestamp);
    counted := tokens.(total := tokens.total + record.inputLength);
    ghost var w := WalkBlocks(caps, v, record.hashIds);
    CountedIsRecord(tokens, record, w.hits);
    if record.hashIds == [] {
      counted := counted.(miss := counted.miss + record.inputLength);
      return;
    }
    var hitRoots;
    counted, hitRoots := CountHits(gpu, dram, fs, groups, record, counted, caps, v);
    GroupRequest(groups, requestIndex, record.timestamp, hitRoots, w.hits);
    WriteThrough(gpu, dram, fs, record.hashIds, requestIndex, caps, w.view);
  }

  // --------------------------------------------------------------- whole runs

  ghost predicate Separate(gpus: seq<LRUCache>, drams: seq<LRUCache>, fs: LRUCache) {
    && |gpus| == |drams|
    && (forall i, j :: 0 <= i < j < |gpus| ==> gpus[i] != gpus[j])
    && (forall i, j :: 0 <= i < j < |drams| ==> drams[i] != drams[j])
    && (forall i, j :: 0 <= i < |gpus| && 0 <= j < |drams| ==> gpus[i] != drams[j])
    && fs !in gpus && fs !in drams
  }

  ghost predicate Shows(gpus: seq<LRUCache>, drams: seq<LRUCache>, fs: LRUCache, caps: Capacities, w: World)
    requires |gpus| == |drams|
    reads gpus, drams, fs
  {
    && |w.gpu| == |w.dram| == |gpus|
    && forall n :: 0 <= n < |gpus| ==> Holds(gpus[n], drams[n], fs, caps, ViewOf(w, n))
  }

  method NewCaches(n: nat, capacity: nat) returns (caches: seq<LRUCache>)
    ensures |caches| == n && forall i :: 0 <= i < n ==> fresh(caches[i])
    ensures forall i, j :: 0 <= i < j < n ==> caches[i] != caches[j]
    ensures forall i :: 0 <= i < n ==> caches[i].Valid() && caches[i].items == [] && caches[i].capacity == capacity
  {
    caches := [];
    for k := 0 to n
      invariant |caches| == k && forall i :: 0 <= i < k ==> fresh(caches[i])
      invariant forall i, j :: 0 <= i < j < k ==> caches[i] != caches[j]
      invariant forall i :: 0 <= i < k ==>
                  caches[i].Valid() && caches[i].items == [] && caches[i].capacity == capacity
    {
      var cache := new LRUCache(capacity);
      caches := caches + [cache];
    }
  }

  lemma ViewsNameEarlierRecords(caps: Capacities, nodes: nat, records: seq<TraceRecord>, nodeOf: seq<nat>, node: nat)
    requires Assigned(nodes, records, nodeOf) && node < nodes
    ensures forall x :: InView(ViewOf(Run(caps, nodes, records, nodeOf), node), x) ==> x.producer < |records|
  {
    TiersShowNewestWrites(caps, nodes, records, nodeOf, node);
    StackNamesLatestWriter(records, nodeOf, Some(node));
    StackNamesLatestWriter(records, nodeOf, None);
  }

  // What the groups know after the given records.
  ghost predicate Grouped(groups: RequestGroups, caps: Capacities, nodes: nat, records: seq<TraceRecord>, nodeOf: seq<nat>)
    requires Assigned(nodes, records, nodeOf)
    reads groups
  {
    && groups.Valid() && |groups.classOf| == |records|
    && GroupedSoFar(groups.firstTimestamp, groups.unions, groups.hits, caps, nodes, records, nodeOf)
    && Timely(groups.classOf, groups.firstTimestamp, groups.hits)
  }

  ghost predicate GroupedSoFar(starts: seq<real>, unions: seq<seq<nat>>, hits: seq<Hit>, caps: Capacities, nodes: nat,
                               records: seq<TraceRecord>, nodeOf: seq<nat>)
    requires Assigned(nodes, records, nodeOf)
  {
    && starts == Starts(records) && unions == RunUnions(caps, nodes, records, nodeOf)
    && hits == RunHits(caps, nodes, records, nodeOf)
  }

  // One record on its node: the caches move from one world to the next.
  method ServeOnNode(gpus: seq<LRUCache>, drams: seq<LRUCache>, fs: LRUCache, groups: RequestGroups,
                     record: TraceRecord, node: nat, tokens: Tokens, ghost caps: Capacities, ghost world: World)
      returns (counted: Tokens)
    requires Separate(gpus, drams, fs) && Shows(gpus, drams, fs, caps, world) && node < |gpus|
    requires groups.Valid() && Timely(groups.classOf, groups.firstTimestamp, groups.hits)
    requires forall x :: InView(ViewOf(world, node), x) ==> x.producer < |groups.classOf|
    modifies gpus[node], drams[node], fs, groups
    ensures Shows(gpus, drams, fs, caps, Serve(caps, world, node, record, old(|groups.classOf|)))
    ensures groups.Valid() && |groups.classOf| == old(|groups.classOf|) + 1
    ensures Timely(groups.classOf, groups.firstTimestamp, groups.hits)
    ensures groups.firstTimestamp == old(groups.firstTimestamp) + [record.timestamp]
    ensures var index, hits := old(|groups.classOf|), WalkBlocks(caps, ViewOf(world, node), record.hashIds).hits;
            && counted == tokens.Plus(RecordTokens(record, hits))
            && groups.unions == old(groups.unions) + (if hits == [] then [] else [[index] + Producers(hits)])
            && groups.hits == old(groups.hits) + (if hits == [] then [] else [Hit(index, record.timestamp)])
  {
    assert Holds(gpus[node], drams[node], fs, caps, ViewOf(world, node));
    counted := ServeRecord(gpus[node], drams[node], fs, groups, record, tokens, caps, ViewOf(world, node));
    ghost var world' := Serve(caps, world, node, record, old(|groups.classOf|));
    forall n | 0 <= n < |gpus| ensures Holds(gpus[n], drams[n], fs, caps, ViewOf(world', n)) {
      if n != node {
        assert old(Holds(gpus[n], drams[n], fs, caps, ViewOf(world, n)));
      }
    }
  }

  // A trace with one more record, served on the given node.
  ghost predicate OneMore(nodes: nat, records: seq<TraceRecord>, nodeOf: seq<nat>, more: seq<TraceRecord>, moreOf: seq<nat>,
                          record: TraceRecord, node: nat)
  {
    && Assigned(nodes, records, nodeOf) && Assigned(nodes, more, moreOf) && |more| == |records| + 1
    && more[..|records|] == records && moreOf[..|records|] == nodeOf
    && more[|records|] == record && moreOf[|records|] == node < nodes
  }

  lemma TakeOneMore(nodes: nat, records: seq<TraceRecord>, nodeOf: seq<nat>, k: nat)
    requires Assigned(nodes, records, nodeOf) && k < |records|
    ensures OneMore(nodes, records[..k], nodeOf[..k], records[..k + 1], nodeOf[..k + 1], records[k], nodeOf[k])
  {
  }

  // What one more record adds to the abstract run.
  lemma RunNext(caps: Capacities, nodes: nat, records: seq<TraceRecord>, nodeOf: seq<nat>,
                more: seq<TraceRecord>, moreOf: seq<nat>, record: TraceRecord, node: nat)
    requires OneMore(nodes, records, nodeOf, more, moreOf, record, node)
    ensures var world := Run(caps, nodes, records, nodeOf);
            var hits := WalkBlocks(caps, ViewOf(world, node), record.hashIds).hits;
            && Run(caps, nodes, more, moreOf) == Serve(caps, world, node, record, |records|)
            && LastHits(caps, nodes, more, moreOf) == hits
            && RunTokens(caps, nodes, more, moreOf) == RunTokens(caps, nodes, records, nodeOf).Plus(RecordTokens(record, hits))
  {
  }

  lemma GroupsNext(starts: seq<real>, unions: seq<seq<nat>>, runHits: seq<Hit>, caps: Capacities, nodes: nat,
                   records: seq<TraceRecord>, nodeOf: seq<nat>, more: seq<TraceRecord>, moreOf: seq<nat>, record: TraceRecord, node: nat)
    requires OneMore(nodes, records, nodeOf, more, moreOf, record, node)
    requires GroupedSoFar(starts, unions, runHits, caps, nodes, records, nodeOf)
    ensures var k, hits := |records|, LastHits(caps, nodes, more, moreOf);
            GroupedSoFar(starts + [record.timestamp],
                         unions + (if hits == [] then [] else [[k] + Producers(hits)]),
                         runHits + (if hits == [] then [] else [Hit(k, record.timestamp)]),
                         caps, nodes, more, moreOf)
  {
    assert Starts(more) == Starts(records) + [record.timestamp];
  }

  // The caches, groups and counters after the given records.
  ghost predicate Simulated(gpus: seq<LRUCache>, drams: seq<LRUCache>, fs: LRUCache, groups: RequestGroups, caps: Capacities,
                            records: seq<TraceRecord>, nodeOf: seq<nat>, tokens: Tokens)
    requires Separate(gpus, drams, fs) && Assigned(|gpus|, records, nodeOf)
    reads gpus, drams, fs, groups
  {
    && Shows(gpus, drams, fs, caps, Run(caps, |gpus|, records, nodeOf))
    && Grouped(groups, caps, |gpus|, records, nodeOf)
    && tokens == RunTokens(caps, |gpus|, records, nodeOf)
  }

  method ServeOneMore(gpus: seq<LRUCache>, drams: seq<LRUCache>, fs: LRUCache, groups: RequestGroups, record: TraceRecord, node: nat,
                      tokens: Tokens, ghost records: seq<TraceRecord>, ghost nodeOf: seq<nat>,
                      ghost more: seq<TraceRecord>, ghost moreOf: seq<nat>, ghost caps: Capacities)
      returns (counted: Tokens)
    requires Separate(gpus, drams, fs) && OneMore(|gpus|, records, nodeOf, more, moreOf, record, node)
    requires Simulated(gpus, drams, fs, groups, caps, records, nodeOf, tokens)
    modifies gpus, drams, fs, groups
    ensures Simulated(gpus, drams, fs, groups, caps, more, moreOf, counted)
  {
    ghost var world := Run(caps, |gpus|, records, nodeOf);
    ViewsNameEarlierRecords(caps, |gpus|, records, nodeOf, node);
    RunNext(caps, |gpus|, records, nodeOf, more, moreOf, record, node);
    GroupsNext(groups.firstTimestamp, groups.unions, groups.hits, caps, |gpus|, records, nodeOf, more, moreOf, record, node);
    counted := ServeOnNode(gpus, drams, fs, groups, record, node, tokens, caps, world);
  }

  method RunRecords(gpus: seq<LRUCache>, drams: seq<LRUCache>, fs: LRUCache, groups: RequestGroups,
                    records: seq<TraceRecord>, nodeOf: seq<nat>, ghost caps: Capacities)
      returns (tokens: Tokens)
    requires Separate(gpus, drams, fs) && Assigned(|gpus|, records, nodeOf)
    requires Shows(gpus, drams, fs, caps, Run(caps, |gpus|, [], []))
    requires Grouped(groups, caps, |gpus|, [], [])
    modifies gpus, drams, fs, groups
    ensures Grouped(groups, caps, |gpus|, records, nodeOf)
    ensures tokens == RunTokens(caps, |gpus|, records, nodeOf)
  {
    tokens := Tokens(0, 0, 0, 0, 0);
    assert records[..0] == [] && nodeOf[..0] == [];
    for k := 0 to |records|
      invariant Simulated(gpus, drams, fs, groups, caps, records[..k], nodeOf[..k], tokens)
    {
      TakeOneMore(|gpus|, records, nodeOf, k);
      tokens := ServeOneMore(gpus, drams, fs, groups, records[k], nodeOf[k], tokens,
                             records[..k], nodeOf[..k], records[..k + 1], nodeOf[..k + 1], caps);
    }
    assert records[..|records|] == records && nodeOf[..|records|] == nodeOf;
  }

  // The counters of a run: all tokens, those each tier provided, and the rest.
  ghost predicate Counts(tokens: Tokens, caps: Capacities, nodes: nat, records: seq<TraceRecord>, nodeOf: seq<nat>)
    requires Assigned(nodes, records, nodeOf)
  {
    && tokens == RunTokens(caps, nodes, records, nodeOf)
    && tokens.total == TotalInput(records) && tokens.Hit() + tokens.miss == tokens.total
    && forall tier :: CountOf(tokens, tier) == RunProvided(caps, nodes, records, nodeOf, tier)
  }

  lemma RunCounts(caps: Capacities, nodes: nat, records: seq<TraceRecord>, nodeOf: seq<nat>)
    requires Assigned(nodes, records, nodeOf)
    ensures Counts(RunTokens(caps, nodes, records, nodeOf), caps, nodes, records, nodeOf)
  {
    TokensConserved(caps, nodes, records, nodeOf);
    forall tier { RunShares(caps, nodes, records, nodeOf, tier); }
  }

  // What a caller is told: the counted tokens, their rate, and the lifetimes of
  // the groups, for the partition that connects each hit with its producers.
  ghost predicate Reports(stats: Stats, classOf: seq<nat>, caps: Capacities, nodes: nat,
                          records: seq<TraceRecord>, nodeOf: seq<nat>)
    requires Assigned(nodes, records, nodeOf)
  {
    && Counts(stats.tokens, caps, nodes, records, nodeOf)
    && IsRate(stats.hitRate, stats.tokens.Hit(), stats.tokens.total)
    && GroupsLived(stats.lifetimes, classOf, caps, nodes, records, nodeOf)
  }

  // The lifetimes of the groups that the hits of a run connect.
  ghost predicate GroupsLived(lifetimes: seq<real>, classOf: seq<nat>, caps: Capacities, nodes: nat,
                              records: seq<TraceRecord>, nodeOf: seq<nat>)
    requires Assigned(nodes, records, nodeOf)
  {
    && |classOf| == |records|
    && Partition(classOf, RunUnions(caps, nodes, records, nodeOf))
    && AreLifetimes(lifetimes, classOf, Starts(records), RunHits(caps, nodes, records, nodeOf), |records|)
    && forall v :: v in lifetimes ==> v >= 0.0
  }

  lemma ReportIsRight(tokens: Tokens, lifetimes: seq<real>, classOf: seq<nat>, caps: Capacities, nodes: nat,
                      records: seq<TraceRecord>, nodeOf: seq<nat>)
    requires Assigned(nodes, records, nodeOf) && tokens == RunTokens(caps, nodes, records, nodeOf)
    requires GroupsLived(lifetimes, classOf, caps, nodes, records, nodeOf)
    ensures Reports(Stats(tokens, Rate(tokens.Hit(), tokens.total), lifetimes), classOf, caps, nodes, records, nodeOf)
  {
    RunCounts(caps, nodes, records, nodeOf);
    RateIsShare(tokens.Hit(), tokens.total);
  }

  method Report(groups: RequestGroups, tokens: Tokens, ghost caps: Capacities, ghost nodes: nat,
                ghost records: seq<TraceRecord>, ghost nodeOf: seq<nat>)
      returns (stats: Stats)
    requires Assigned(nodes, records, nodeOf) && Grouped(groups, caps, nodes, records, nodeOf)
    requires tokens == RunTokens(caps, nodes, records, nodeOf)
    modifies groups`parent
    ensures Reports(stats, groups.classOf, caps, nodes, records, nodeOf)
  {
    var lifetimes := groups.LifetimeList();
    LifetimesNonNegative(groups.classOf, Starts(records), groups.hits, |records|);
    ReportIsRight(tokens, lifetimes, groups.classOf, caps, nodes, records, nodeOf);
    stats := Stats(tokens, Rate(tokens.Hit(), tokens.total), lifetimes);
  }

  method SimulateCacheHitRate(records: seq<TraceRecord>, gpuCapacityBlocks: int, dramCapacityBlocks: int,
                              fsCapacityBlocks: int, numNodes: int, nodeOf: seq<nat>)
      returns (result: Result<Stats>, ghost classOf: seq<nat>)
    requires numNodes >= 1 ==> Assigned(numNodes, records, nodeOf)
    ensures numNodes < 1 ==> result == Err("num_nodes must be >= 1")
    ensures numNodes >= 1 && (gpuCapacityBlocks < 0 || dramCapacityBlocks < 0 || fsCapacityBlocks < 0) ==>
              result == Err("cache capacities must be >= 0")
    ensures numNodes >= 1 && gpuCapacityBlocks >= 0 && dramCapacityBlocks >= 0 && fsCapacityBlocks >= 0 ==>
              && result.Ok?
              && Reports(result.value, classOf, Capacities(gpuCapacityBlocks, dramCapacityBlocks, fsCapacityBlocks),
                         numNodes, records, nodeOf)
  {
    classOf := [];
    if numNodes < 1 {
      result := Err("num_nodes must be >= 1");
    } else if gpuCapacityBlocks < 0 || dramCapacityBlocks < 0 || fsCapacityBlocks < 0 {
      result := Err("cache capacities must be >= 0");
    } else {
      var stats;
      stats, classOf := Simulate(records, Capacities(gpuCapacityBlocks, dramCapacityBlocks, fsCapacityBlocks), numNodes, nodeOf);
      result := Ok(stats);
    }
  }

  method NewTiers(n: nat, caps: Capacities) returns (gpus: seq<LRUCache>, drams: seq<LRUCache>, fs: LRUCache)
    ensures Separate(gpus, drams, fs) && |gpus| == n && AllEmpty(gpus, caps.gpu) && AllEmpty(drams, caps.dram) && AllEmpty([fs], caps.fs)
    ensures fresh(fs) && (forall i :: 0 <= i < n ==> fresh(gpus[i])) && forall i :: 0 <= i < n ==> fresh(drams[i])
  {
    gpus := NewCaches(n, caps.gpu);
    drams := NewCaches(n, caps.dram);
    fs := new LRUCache(caps.fs);
  }

  ghost predicate AllEmpty(caches: seq<LRUCache>, capacity: nat)
    reads caches
  {
    forall i :: 0 <= i < |caches| ==> caches[i].Valid() && caches[i].items == [] && caches[i].capacity == capacity
  }

  method Simulate(records: seq<TraceRecord>, caps: Capacities, numNodes: nat, nodeOf: seq<nat>)
      returns (stats: Stats, ghost classOf: seq<nat>)
    requires Assigned(numNodes, records, nodeOf)
    ensures Reports(stats, classOf, caps, numNodes, records, nodeOf)
  {
    var gpuCaches, dramCaches, fsCache := NewTiers(numNodes, caps);
    var groups := new RequestGroups();
    StartsEmpty(gpuCaches, dramCaches, fsCache, groups, caps);
    var tokens := RunRecords(gpuCaches, dramCaches, fsCache, groups, records, nodeOf, caps);
    stats := Report(groups, tokens, caps, numNodes, records, nodeOf);
    classOf := groups.classOf;
  }

  // New caches and groups are those of a run that has served nothing.
  lemma StartsEmpty(gpus: seq<LRUCache>, drams: seq<LRUCache>, fs: LRUCache, groups: RequestGroups, caps: Capacities)
    requires Separate(gpus, drams, fs) && groups.Valid()
    requires AllEmpty(gpus, caps.gpu) && AllEmpty(drams, caps.dram) && AllEmpty([fs], caps.fs)
    requires groups.classOf == [] && groups.firstTimestamp == [] && groups.hits == [] && groups.unions == []
    ensures Shows(gpus, drams, fs, caps, Run(caps, |gpus|, [], [])) && Grouped(groups, caps, |gpus|, [], [])
  {
    assert [fs][0] == fs;
  }
}
