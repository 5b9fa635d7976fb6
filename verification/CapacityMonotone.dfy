/**
 More room and more hits: for any number of nodes the hits of every record, and so the hit
 tokens of the trace, grow with the DRAM and FS capacities, and with the GPU capacity as
 long as no record repeats a block.
 */
module CapacityMonotone {
  import opened Wrappers
  import opened Sets
  import opened Prefixes
  import opened Lru
  import opened Tiers
  import opened TraceRuns

  // ---------------------------------------------------------------- stack distance

  // The blocks of a stack that are newer than a given one.
  function Newer(s: seq<Slot>, key: BlockId): set<BlockId> {
    if s == [] || s[|s| - 1].key == key then {}
    else Newer(s[..|s| - 1], key) + {s[|s| - 1].key}
  }

  lemma {:induction false} NewerWithin(s: seq<Slot>, key: BlockId)
    ensures Newer(s, key) <= KeySet(s)
  {
    if s != [] {
      NewerWithin(s[..|s| - 1], key);
      assert forall i :: 0 <= i < |s| - 1 ==> s[..|s| - 1][i] == s[i];
    }
  }

  // A cache holds a block exactly when fewer newer blocks than its capacity are in the stack.
  lemma {:induction false} InNewest(s: seq<Slot>, capacity: nat, key: BlockId)
    requires Distinct(s)
    ensures key in KeySet(Newest(s, capacity)) <==> key in KeySet(s) && |Newer(s, key)| < capacity
  {
    if s != [] && capacity > 0 {
      var early, last := s[..|s| - 1], s[|s| - 1];
      InNewest(early, capacity - 1, key);
      assert s == early + [last];
      OldestLeaves(early, last, capacity);
      if last.key != key {
        NewerWithin(early, key);
        assert |Newer(early, key) + {last.key}| == |Newer(early, key)| + 1;
      }
    }
  }

  lemma OldestLeaves(early: seq<Slot>, last: Slot, capacity: nat)
    requires Distinct(early + [last]) && capacity > 0
    ensures KeySet(Newest(early + [last], capacity)) == KeySet(Newest(early, capacity - 1)) + {last.key}
    ensures KeySet(early + [last]) == KeySet(early) + {last.key} && last.key !in KeySet(early)
  {
    assert Newest(early + [last], capacity) == Newest(early, capacity - 1) + [last];
    KeySetConcat(early, [last]);
    KeySetConcat(Newest(early, capacity - 1), [last]);
    forall x | x in early ensures x.key != last.key {
      var i :| 0 <= i < |early| && early[i] == x;
      assert (early + [last])[i].key != (early + [last])[|early|].key;
    }
  }

  lemma NewerAppend(s: seq<Slot>, x: Slot, key: BlockId)
    ensures Newer(s + [x], key) == if x.key == key then {} else Newer(s, key) + {x.key}
  {
    assert (s + [x])[..|s|] == s;
  }

  lemma {:induction false} NewerWithout(s: seq<Slot>, gone: BlockId, key: BlockId)
    requires gone != key
    ensures Newer(Without(s, {gone}), key) == Newer(s, key) - {gone}
  {
    if s != [] {
      NewerWithout(s[..|s| - 1], gone, key);
      var rest, last := Without(s[..|s| - 1], {gone}), s[|s| - 1];
      if last.key == gone {
        assert Without(s, {gone}) == rest;
      } else {
        assert Without(s, {gone}) == rest + [last];
        NewerAppend(rest, last, key);
      }
    }
  }

  // A push makes its block newer than every other one, and moves nothing else.
  lemma NewerAfterPush(s: seq<Slot>, x: Slot, key: BlockId)
    requires Distinct(s) && x.key != key
    ensures Newer(Push(s, x), key) == Newer(s, key) + {x.key}
    ensures key in KeySet(Push(s, x)) <==> key in KeySet(s)
  {
    NewerWithout(s, x.key, key);
    var rest := Without(s, {x.key});
    assert (rest + [x])[..|rest|] == rest;
    PushDistinct(s, x);
  }

  // -------------------------------------------------------------------- two walks

  // What two stacks say alike of the blocks still to be looked up: `pushed` are the blocks
  // used since the settled stack `node`.
  ghost predicate Pushed(s: seq<Slot>, node: seq<Slot>, front: set<BlockId>, pushed: set<BlockId>) {
    && Distinct(s)
    && forall key :: key !in front ==>
         (key in KeySet(s) <==> key in KeySet(node)) && (key in KeySet(node) ==> Newer(s, key) == Newer(node, key) + pushed)
  }

  // An unbroken walk: the GPU tier shows a stack on which all blocks so far were used, the
  // DRAM tier one on which only those were used that the GPU tier did not hold.
  ghost predicate Shows(caps: Capacities, node: seq<Slot>, shared: seq<Slot>, front: set<BlockId>, v: View,
                        gpu: seq<Slot>, dram: seq<Slot>, missed: set<BlockId>)
  {
    && v.gpu == Newest(gpu, caps.gpu) && v.dram == Newest(dram, caps.dram)
    && Distinct(v.fs) && KeySet(v.fs) == KeySet(Newest(shared, caps.fs))
    && Pushed(gpu, node, front, front) && Pushed(dram, node, front, missed) && missed <= front
  }

  lemma PushOnce(s: seq<Slot>, node: seq<Slot>, front: set<BlockId>, pushed: set<BlockId>, x: Slot)
    requires Pushed(s, node, front, pushed) && x.key !in front
    ensures Pushed(Push(s, x), node, front + {x.key}, pushed + {x.key})
    ensures Pushed(s, node, front + {x.key}, pushed)
  {
    PushDistinct(s, x);
    forall key | key !in front + {x.key}
      ensures key in KeySet(Push(s, x)) <==> key in KeySet(node)
      ensures key in KeySet(node) ==> Newer(Push(s, x), key) == Newer(node, key) + (pushed + {x.key})
    {
      NewerAfterPush(s, x, key);
    }
  }

  // A block that is hit is pushed to the GPU tier, and to the DRAM tier when the GPU tier
  // did not hold it.
  lemma HitPushes(caps: Capacities, w: Walk, gpu: seq<Slot>, dram: seq<Slot>, key: BlockId) returns (p: nat)
    requires w.available && Step(caps, w, key).available && Distinct(gpu) && Distinct(dram) && Distinct(w.view.fs)
    requires w.view.gpu == Newest(gpu, caps.gpu) && w.view.dram == Newest(dram, caps.dram)
    ensures var next := Step(caps, w, key).view;
            && next.gpu == Newest(Push(gpu, Slot(key, p)), caps.gpu)
            && next.dram == Newest(if key in KeySet(w.view.gpu) then dram else Push(dram, Slot(key, p)), caps.dram)
            && Distinct(next.fs) && KeySet(next.fs) == KeySet(w.view.fs)
  {
    NewestDistinct(gpu, caps.gpu);
    NewestDistinct(dram, caps.dram);
    FindSpec(w.view.gpu, key);
    FindSpec(w.view.dram, key);
    p := Step(caps, w, key).hits[|w.hits|].producer;
    match Find(w.view.gpu, key)
    case Some(_) =>
      TouchIsPush(gpu, caps.gpu, key);
    case None =>
      InsertIsPush(gpu, caps.gpu, Slot(key, p));
      if Find(w.view.dram, key).Some? {
        TouchIsPush(dram, caps.dram, key);
      } else {
        InsertIsPush(dram, caps.dram, Slot(key, p));
        TouchKeys(w.view.fs, key);
      }
  }

  // One block that is hit keeps the walk in this shape.
  lemma HitShows(caps: Capacities, node: seq<Slot>, shared: seq<Slot>, front: set<BlockId>, w: Walk,
                 gpu: seq<Slot>, dram: seq<Slot>, missed: set<BlockId>, key: BlockId)
      returns (gpu': seq<Slot>, dram': seq<Slot>)
    requires Shows(caps, node, shared, front, w.view, gpu, dram, missed) && key !in front
    requires w.available && Step(caps, w, key).available
    ensures Shows(caps, node, shared, front + {key}, Step(caps, w, key).view, gpu', dram',
                  if key in KeySet(w.view.gpu) then missed else missed + {key})
  {
    var p := HitPushes(caps, w, gpu, dram, key);
    PushOnce(gpu, node, front, front, Slot(key, p));
    PushOnce(dram, node, front, missed, Slot(key, p));
    gpu' := Push(gpu, Slot(key, p));
    dram' := if key in KeySet(w.view.gpu) then dram else Push(dram, Slot(key, p));
  }

  // A block that the smaller tiers hold, the larger ones hold too.
  lemma HitInBoth(less: Capacities, more: Capacities, node: seq<Slot>, shared: seq<Slot>, front: set<BlockId>,
                  v: View, w: View, gpu: seq<Slot>, dram: seq<Slot>, missed: set<BlockId>,
                  gpu': seq<Slot>, dram': seq<Slot>, missed': set<BlockId>, key: BlockId)
    requires less.gpu <= more.gpu && less.dram <= more.dram && less.fs <= more.fs
    requires Shows(less, node, shared, front, v, gpu, dram, missed) && Shows(more, node, shared, front, w, gpu', dram', missed')
    requires missed' <= missed && key !in front
    ensures key in KeySet(v.gpu) ==> key in KeySet(w.gpu)
    ensures key in KeySet(v.dram) ==> key in KeySet(w.dram)
    ensures key in KeySet(v.fs) ==> key in KeySet(w.fs)
  {
    InNewest(gpu, less.gpu, key);
    InNewest(gpu', more.gpu, key);
    InNewest(dram, less.dram, key);
    InNewest(dram', more.dram, key);
    SubsetSize(Newer(node, key) + missed', Newer(node, key) + missed);
    NewestMonotone(shared, less.fs, more.fs);
  }

  ghost predicate NoRepeats(keys: seq<BlockId>) {
    forall i, j :: 0 <= i < j < |keys| ==> keys[i] != keys[j]
  }

  // While the smaller tiers hit every block, so do the larger ones, which use their DRAM
  // tier for no more blocks.
  lemma {:induction false} BothHit(less: Capacities, more: Capacities, node: seq<Slot>, shared: seq<Slot>, keys: seq<BlockId>)
      returns (gpu: seq<Slot>, dram: seq<Slot>, missed: set<BlockId>, gpu': seq<Slot>, dram': seq<Slot>, missed': set<BlockId>)
    requires less.gpu <= more.gpu && less.dram <= more.dram && less.fs <= more.fs
    requires Distinct(node) && Distinct(shared) && NoRepeats(keys)
    requires WalkBlocks(less, Settled(less, node, shared), keys).available
    ensures WalkBlocks(more, Settled(more, node, shared), keys).available
    ensures Shows(less, node, shared, SetOf(keys), WalkBlocks(less, Settled(less, node, shared), keys).view, gpu, dram, missed)
    ensures Shows(more, node, shared, SetOf(keys), WalkBlocks(more, Settled(more, node, shared), keys).view, gpu', dram', missed')
    ensures missed' <= missed
  {
    if keys == [] {
      NewestDistinct(shared, less.fs);
      NewestDistinct(shared, more.fs);
      assert SetOf(keys) == {};
      gpu, dram, missed, gpu', dram', missed' := node, node, {}, node, node, {};
    } else {
      var front, key := keys[..|keys| - 1], keys[|keys| - 1];
      assert keys == front + [key] && SetOf(keys) == SetOf(front) + {key};
      gpu, dram, missed, gpu', dram', missed' := BothHit(less, more, node, shared, front);
      var v, w := WalkBlocks(less, Settled(less, node, shared), front), WalkBlocks(more, Settled(more, node, shared), front);
      HitInBoth(less, more, node, shared, SetOf(front), v.view, w.view, gpu, dram, missed, gpu', dram', missed', key);
      FoundMeans(less, v, key, gpu, dram);
      FoundMeans(more, w, key, gpu', dram');
      var missedNow, missedNow' := if key in KeySet(v.view.gpu) then missed else missed + {key},
                                   if key in KeySet(w.view.gpu) then missed' else missed' + {key};
      gpu, dram := HitShows(less, node, shared, SetOf(front), v, gpu, dram, missed, key);
      gpu', dram' := HitShows(more, node, shared, SetOf(front), w, gpu', dram', missed', key);
      missed, missed' := missedNow, missedNow';
    }
  }

  // A lookup hits exactly when some tier holds the block.
  lemma FoundMeans(caps: Capacities, w: Walk, key: BlockId, gpu: seq<Slot>, dram: seq<Slot>)
    requires w.available && Distinct(gpu) && Distinct(dram) && Distinct(w.view.fs)
    requires w.view.gpu == Newest(gpu, caps.gpu) && w.view.dram == Newest(dram, caps.dram)
    ensures Step(caps, w, key).available <==>
            key in KeySet(w.view.gpu) || key in KeySet(w.view.dram) || key in KeySet(w.view.fs)
  {
    NewestDistinct(gpu, caps.gpu);
    NewestDistinct(dram, caps.dram);
    FindSpec(w.view.gpu, key);
    FindSpec(w.view.dram, key);
    FindSpec(w.view.fs, key);
  }

  // ------------------------------------------------------------- equal GPU tiers

  // Two stacks with the same blocks in the same order, whoever wrote them.
  ghost predicate SameOrder(s: seq<Slot>, t: seq<Slot>) {
    Distinct(s) && Distinct(t) && KeySet(s) == KeySet(t) && forall key :: key in KeySet(s) ==> Newer(s, key) == Newer(t, key)
  }

  lemma SameOrderPush(s: seq<Slot>, t: seq<Slot>, x: Slot, y: Slot)
    requires SameOrder(s, t) && x.key == y.key
    ensures SameOrder(Push(s, x), Push(t, y))
  {
    PushDistinct(s, x);
    PushDistinct(t, y);
    forall key | key in KeySet(Push(s, x)) ensures Newer(Push(s, x), key) == Newer(Push(t, y), key) {
      if key != x.key {
        NewerAfterPush(s, x, key);
        NewerAfterPush(t, y, key);
      }
    }
  }

  lemma SameOrderNewest(s: seq<Slot>, t: seq<Slot>, small: nat, large: nat, key: BlockId)
    requires SameOrder(s, t) && small <= large
    ensures key in KeySet(Newest(s, small)) ==> key in KeySet(Newest(t, large))
    ensures small == large ==> (key in KeySet(Newest(s, small)) <==> key in KeySet(Newest(t, large)))
  {
    InNewest(s, small, key);
    InNewest(t, large, key);
  }

  // Two unbroken walks with equal GPU tiers: their tiers show the same stacks.
  ghost predicate Alike(less: Capacities, more: Capacities, shared: seq<Slot>, v: View, w: View,
                        gpu: seq<Slot>, gpu': seq<Slot>, dram: seq<Slot>, dram': seq<Slot>)
  {
    && SameOrder(gpu, gpu') && SameOrder(dram, dram')
    && v.gpu == Newest(gpu, less.gpu) && w.gpu == Newest(gpu', more.gpu)
    && v.dram == Newest(dram, less.dram) && w.dram == Newest(dram', more.dram)
    && Distinct(v.fs) && KeySet(v.fs) == KeySet(Newest(shared, less.fs))
    && Distinct(w.fs) && KeySet(w.fs) == KeySet(Newest(shared, more.fs))
  }

  lemma AlikeStep(less: Capacities, more: Capacities, shared: seq<Slot>, v: Walk, w: Walk,
                  gpu: seq<Slot>, gpu': seq<Slot>, dram: seq<Slot>, dram': seq<Slot>, key: BlockId)
      returns (g: seq<Slot>, g': seq<Slot>, d: seq<Slot>, d': seq<Slot>)
    requires less.gpu == more.gpu && less.dram <= more.dram && less.fs <= more.fs
    requires Alike(less, more, shared, v.view, w.view, gpu, gpu', dram, dram')
    requires v.available && w.available && Step(less, v, key).available
    ensures Step(more, w, key).available
    ensures Alike(less, more, shared, Step(less, v, key).view, Step(more, w, key).view, g, g', d, d')
  {
    FoundMeans(less, v, key, gpu, dram);
    FoundMeans(more, w, key, gpu', dram');
    SameOrderNewest(gpu, gpu', less.gpu, more.gpu, key);
    SameOrderNewest(dram, dram', less.dram, more.dram, key);
    NewestMonotone(shared, less.fs, more.fs);
    var p := HitPushes(less, v, gpu, dram, key);
    var q := HitPushes(more, w, gpu', dram', key);
    SameOrderPush(gpu, gpu', Slot(key, p), Slot(key, q));
    SameOrderPush(dram, dram', Slot(key, p), Slot(key, q));
    g, g' := Push(gpu, Slot(key, p)), Push(gpu', Slot(key, q));
    if key in KeySet(v.view.gpu) {
      d, d' := dram, dram';
    } else {
      d, d' := Push(dram, Slot(key, p)), Push(dram', Slot(key, q));
    }
  }

  lemma {:induction false} BothHitAlike(less: Capacities, more: Capacities, node: seq<Slot>, shared: seq<Slot>, keys: seq<BlockId>)
      returns (gpu: seq<Slot>, gpu': seq<Slot>, dram: seq<Slot>, dram': seq<Slot>)
    requires less.gpu == more.gpu && less.dram <= more.dram && less.fs <= more.fs
    requires Distinct(node) && Distinct(shared)
    requires WalkBlocks(less, Settled(less, node, shared), keys).available
    ensures WalkBlocks(more, Settled(more, node, shared), keys).available
    ensures Alike(less, more, shared, WalkBlocks(less, Settled(less, node, shared), keys).view,
                  WalkBlocks(more, Settled(more, node, shared), keys).view, gpu, gpu', dram, dram')
  {
    if keys == [] {
      NewestDistinct(shared, less.fs);
      NewestDistinct(shared, more.fs);
      gpu, gpu', dram, dram' := node, node, node, node;
    } else {
      var front, key := keys[..|keys| - 1], keys[|keys| - 1];
      gpu, gpu', dram, dram' := BothHitAlike(less, more, node, shared, front);
      gpu, gpu', dram, dram' :=
        AlikeStep(less, more, shared, WalkBlocks(less, Settled(less, node, shared), front),
                  WalkBlocks(more, Settled(more, node, shared), front), gpu, gpu', dram, dram', key);
    }
  }

  // ------------------------------------------------------------------ the theorem

  // Larger tiers never hit a shorter prefix of a record, provided that the GPU tiers are
  // equal or the record repeats no block.
  lemma {:induction false} MoreRoomMoreHits(less: Capacities, more: Capacities, node: seq<Slot>, shared: seq<Slot>, keys: seq<BlockId>)
    requires less.gpu <= more.gpu && less.dram <= more.dram && less.fs <= more.fs
    requires less.gpu == more.gpu || NoRepeats(keys)
    requires Distinct(node) && Distinct(shared)
    ensures |WalkBlocks(less, Settled(less, node, shared), keys).hits| <= |WalkBlocks(more, Settled(more, node, shared), keys).hits|
  {
    if keys != [] {
      if !WalkBlocks(less, Settled(less, node, shared), keys).available {
        MoreRoomMoreHits(less, more, node, shared, keys[..|keys| - 1]);
      } else {
        if less.gpu == more.gpu {
          var _, _, _, _ := BothHitAlike(less, more, node, shared, keys);
        } else {
          var _, _, _, _, _, _ := BothHit(less, more, node, shared, keys);
        }
        AvailableHits(less, Settled(less, node, shared), keys);
        AvailableHits(more, Settled(more, node, shared), keys);
      }
    }
  }

  // For any number of nodes and any assignment of records to them, the hit tokens of every
  // trace grow with the DRAM and FS capacities, and on traces in which no record repeats a
  // block with the GPU capacity too.
  lemma MonotoneInEachCapacity(less: Capacities, more: Capacities, nodes: nat, records: seq<TraceRecord>, nodeOf: seq<nat>)
    requires less.gpu <= more.gpu && less.dram <= more.dram && less.fs <= more.fs
    requires less.gpu == more.gpu || forall k :: 0 <= k < |records| ==> NoRepeats(records[k].hashIds)
    requires Assigned(nodes, records, nodeOf)
    ensures RunTokens(less, nodes, records, nodeOf).Hit() <= RunTokens(more, nodes, records, nodeOf).Hit()
  {
    forall k | 0 < k <= |records| ensures HitsAtMost(less, more, nodes, records[..k], nodeOf[..k]) {
      RecordHitsMore(less, more, nodes, records, nodeOf, k);
    }
    EachHitsMore(less, more, nodes, records, nodeOf);
  }

  lemma RecordHitsMore(less: Capacities, more: Capacities, nodes: nat, records: seq<TraceRecord>, nodeOf: seq<nat>, k: nat)
    requires less.gpu <= more.gpu && less.dram <= more.dram && less.fs <= more.fs && 0 < k <= |records|
    requires less.gpu == more.gpu || NoRepeats(records[k - 1].hashIds)
    requires Assigned(nodes, records, nodeOf)
    ensures HitsAtMost(less, more, nodes, records[..k], nodeOf[..k])
  {
    var own, shared := HitsFromStacks(less, nodes, records[..k], nodeOf[..k]);
    var _, _ := HitsFromStacks(more, nodes, records[..k], nodeOf[..k]);
    MoreRoomMoreHits(less, more, own, shared, records[k - 1].hashIds);
  }

  // ------------------------------------------------------- a record with repeats

  // One step of a walk, by the tier that holds the block.
  lemma GpuHit(caps: Capacities, w: Walk, i: nat)
    requires w.available && Distinct(w.view.gpu) && i < |w.view.gpu|
    ensures var gpu := w.view.gpu;
            Step(caps, w, gpu[i].key) ==
            Walk(w.view.(gpu := gpu[..i] + gpu[i + 1..] + [gpu[i]]), true, w.hits + [CacheHit(Gpu, gpu[i].producer)])
  {
    FindSpec(w.view.gpu, w.view.gpu[i].key);
    MoveToEnd(w.view.gpu, i, w.view.gpu[i]);
  }

  lemma DramHit(caps: Capacities, w: Walk, i: nat)
    requires w.available && Distinct(w.view.gpu) && Distinct(w.view.dram) && i < |w.view.dram| && 0 < caps.gpu
    requires w.view.dram[i].key !in KeySet(w.view.gpu)
    ensures var dram := w.view.dram;
            Step(caps, w, dram[i].key) ==
            Walk(View(Newest(w.view.gpu + [dram[i]], caps.gpu), dram[..i] + dram[i + 1..] + [dram[i]], w.view.fs), true,
                 w.hits + [CacheHit(Dram, dram[i].producer)])
  {
    var x := w.view.dram[i];
    FindSpec(w.view.gpu, x.key);
    FindSpec(w.view.dram, x.key);
    MoveToEnd(w.view.dram, i, x);
    WithoutAbsent(w.view.gpu, {x.key});
  }

  lemma FsHit(caps: Capacities, w: Walk, i: nat)
    requires w.available && Distinct(w.view.gpu) && Distinct(w.view.dram) && Distinct(w.view.fs)
    requires i < |w.view.fs| && 0 < caps.gpu && 0 < caps.dram
    requires w.view.fs[i].key !in KeySet(w.view.gpu) && w.view.fs[i].key !in KeySet(w.view.dram)
    ensures var fs := w.view.fs;
            Step(caps, w, fs[i].key) ==
            Walk(View(Newest(w.view.gpu + [fs[i]], caps.gpu), Newest(w.view.dram + [fs[i]], caps.dram), fs[..i] + fs[i + 1..] + [fs[i]]),
                 true, w.hits + [CacheHit(Fs, fs[i].producer)])
  {
    var x := w.view.fs[i];
    FindSpec(w.view.gpu, x.key);
    FindSpec(w.view.dram, x.key);
    FindSpec(w.view.fs, x.key);
    MoveToEnd(w.view.fs, i, x);
    WithoutAbsent(w.view.gpu, {x.key});
    WithoutAbsent(w.view.dram, {x.key});
  }

  lemma NoHit(caps: Capacities, w: Walk, key: BlockId)
    requires Distinct(w.view.gpu) && Distinct(w.view.dram) && Distinct(w.view.fs)
    requires key !in KeySet(w.view.gpu) && key !in KeySet(w.view.dram) && key !in KeySet(w.view.fs)
    ensures Step(caps, w, key) == w.(available := false)
  {
    FindSpec(w.view.gpu, key);
    FindSpec(w.view.dram, key);
    FindSpec(w.view.fs, key);
  }

  // An unbroken walk over some keys, and the view and number of hits it has come to.
  ghost predicate Reached(caps: Capacities, v: View, keys: seq<BlockId>, now: View) {
    var w := WalkBlocks(caps, v, keys);
    w.available && w.view == now && Distinct(now.gpu) && Distinct(now.dram) && Distinct(now.fs)
  }

  lemma WalkOneMore(caps: Capacities, v: View, keys: seq<BlockId>, key: BlockId)
    ensures WalkBlocks(caps, v, keys + [key]) == Step(caps, WalkBlocks(caps, v, keys), key)
  {
    assert (keys + [key])[..|keys|] == keys;
  }

  lemma FromGpu(caps: Capacities, v: View, keys: seq<BlockId>, now: View, i: nat, more: seq<BlockId>, next: View)
    requires Reached(caps, v, keys, now) && i < |now.gpu|
    requires next.gpu == now.gpu[..i] + now.gpu[i + 1..] + [now.gpu[i]] && next.dram == now.dram && next.fs == now.fs
    requires Distinct(next.gpu)
    requires more == keys + [now.gpu[i].key]
    ensures Reached(caps, v, more, next)
  {
    GpuHit(caps, WalkBlocks(caps, v, keys), i);
    WalkOneMore(caps, v, keys, now.gpu[i].key);
  }

  lemma FromDram(caps: Capacities, v: View, keys: seq<BlockId>, now: View, i: nat, more: seq<BlockId>, next: View)
    requires Reached(caps, v, keys, now) && i < |now.dram| && 0 < caps.gpu && Lacks(now.gpu, now.dram[i].key)
    requires next.gpu == Newest(now.gpu + [now.dram[i]], caps.gpu)
    requires next.dram == now.dram[..i] + now.dram[i + 1..] + [now.dram[i]] && next.fs == now.fs
    requires Distinct(next.gpu) && Distinct(next.dram)
    requires more == keys + [now.dram[i].key]
    ensures Reached(caps, v, more, next)
  {
    DramHit(caps, WalkBlocks(caps, v, keys), i);
    WalkOneMore(caps, v, keys, now.dram[i].key);
  }

  lemma FromFs(caps: Capacities, v: View, keys: seq<BlockId>, now: View, i: nat, more: seq<BlockId>, next: View)
    requires Reached(caps, v, keys, now) && i < |now.fs| && 0 < caps.gpu && 0 < caps.dram
    requires Lacks(now.gpu, now.fs[i].key) && Lacks(now.dram, now.fs[i].key)
    requires next.gpu == Newest(now.gpu + [now.fs[i]], caps.gpu) && next.dram == Newest(now.dram + [now.fs[i]], caps.dram)
    requires next.fs == now.fs[..i] + now.fs[i + 1..] + [now.fs[i]]
    requires Distinct(next.gpu) && Distinct(next.dram) && Distinct(next.fs)
    requires more == keys + [now.fs[i].key]
    ensures Reached(caps, v, more, next)
  {
    FsHit(caps, WalkBlocks(caps, v, keys), i);
    WalkOneMore(caps, v, keys, now.fs[i].key);
  }

  ghost predicate Lacks(s: seq<Slot>, key: BlockId) { forall i :: 0 <= i < |s| ==> s[i].key != key }

  // Three records on two nodes; the last one repeats two blocks.
  function Repeating(): seq<TraceRecord> {
    [TraceRecord(0.0, 3, [1, 2, 0]), TraceRecord(1.0, 1, [3]), TraceRecord(2.0, 5, [2, 1, 3, 2, 3])]
  }

  // Blocks a, b and c of the node, and d of the other one.
  ghost predicate FourBlocks(a: Slot, b: Slot, c: Slot, d: Slot) {
    a.key != b.key && a.key != c.key && a.key != d.key && b.key != c.key && b.key != d.key && c.key != d.key
  }

  lemma Rotations(a: Slot, b: Slot, c: Slot)
    ensures [a, b, c][..0] + [a, b, c][1..] + [a] == [b, c, a] && [a, b, c][..1] + [a, b, c][2..] + [b] == [a, c, b]
    ensures [a, b][..0] + [a, b][1..] + [a] == [b, a] && [a][..0] + [a][1..] + [a] == [a]
  {
  }

  lemma Insertions(a: Slot, b: Slot, c: Slot, d: Slot)
    ensures Newest([a, b, c] + [d], 3) == [b, c, d] && Newest([a, b] + [c], 2) == [b, c] && Newest([a] + [b], 1) == [b]
  {
  }

  // One block of GPU cache: every block of the last record is hit.
  lemma SmallGpuStarts(caps: Capacities, v: View, a: Slot, b: Slot, c: Slot, d: Slot)
    requires FourBlocks(a, b, c, d) && caps == Capacities(1, 3, 1) && v == View([c], [a, b, c], [d])
    ensures Reached(caps, v, [b.key, a.key], View([a], [c, b, a], [d]))
  {
    SmallGpuSecond(caps, v, [], c, a, b, c, [d]);
    SmallGpuFirst(caps, v, [b.key], b, a, c, b, [d]);
    assert [] + [b.key] == [b.key] && [b.key] + [a.key] == [b.key, a.key];
  }

  // A hit of the oldest of three blocks in the DRAM tier, above a GPU tier of one block.
  lemma SmallGpuFirst(caps: Capacities, v: View, keys: seq<BlockId>, g: Slot, a: Slot, b: Slot, c: Slot, fs: seq<Slot>)
    requires caps == Capacities(1, 3, 1) && g.key != a.key && Reached(caps, v, keys, View([g], [a, b, c], fs))
    ensures Reached(caps, v, keys + [a.key], View([a], [b, c, a], fs))
  {
    Rotations(a, b, c);
    Insertions(g, a, a, a);
    ThreeApart(a, b, c);
    FromDram(caps, v, keys, View([g], [a, b, c], fs), 0, keys + [a.key], View([a], [b, c, a], fs));
  }

  // And of the second oldest.
  lemma SmallGpuSecond(caps: Capacities, v: View, keys: seq<BlockId>, g: Slot, a: Slot, b: Slot, c: Slot, fs: seq<Slot>)
    requires caps == Capacities(1, 3, 1) && g.key != b.key && Reached(caps, v, keys, View([g], [a, b, c], fs))
    ensures Reached(caps, v, keys + [b.key], View([b], [a, c, b], fs))
  {
    Rotations(a, b, c);
    Insertions(g, b, b, b);
    ThreeApart(a, b, c);
    FromDram(caps, v, keys, View([g], [a, b, c], fs), 1, keys + [b.key], View([b], [a, c, b], fs));
  }

  lemma ThreeApart(a: Slot, b: Slot, c: Slot)
    ensures Distinct([a, b, c]) <==> a.key != b.key && b.key != c.key && a.key != c.key
    ensures Distinct([a, b, c]) ==> Distinct([b, c, a]) && Distinct([a, c, b])
  {
    assert [a, b, c][0] == a && [a, b, c][1] == b && [a, b, c][2] == c;
  }

  lemma SmallGpuFs(caps: Capacities, v: View, keys: seq<BlockId>, a: Slot, b: Slot, c: Slot, d: Slot)
    requires FourBlocks(a, b, c, d) && caps == Capacities(1, 3, 1)
    requires Reached(caps, v, keys, View([a], [c, b, a], [d]))
    ensures Reached(caps, v, keys + [d.key], View([d], [b, a, d], [d]))
  {
    Insertions(c, b, a, d);
    Insertions(a, d, d, d);
    Rotations(d, d, d);
    FromFs(caps, v, keys, View([a], [c, b, a], [d]), 0, keys + [d.key], View([d], [b, a, d], [d]));
  }

  lemma SmallGpuEnds(caps: Capacities, v: View, keys: seq<BlockId>, a: Slot, b: Slot, c: Slot, d: Slot)
    requires FourBlocks(a, b, c, d) && caps == Capacities(1, 3, 1)
    requires Reached(caps, v, keys, View([a], [c, b, a], [d]))
    ensures WalkBlocks(caps, v, keys + [d.key] + [b.key] + [d.key]).available
  {
    SmallGpuFs(caps, v, keys, a, b, c, d);
    SmallGpuFirst(caps, v, keys + [d.key], d, b, a, d, [d]);
    SmallGpuSecond(caps, v, keys + [d.key] + [b.key], b, a, d, b, [d]);
  }

  // Two blocks: the first block is found there and so grows old in the DRAM tier, and it is
  // gone from both when the record asks for it again.
  lemma LargeGpuStarts(caps: Capacities, v: View, a: Slot, b: Slot, c: Slot, d: Slot)
    requires FourBlocks(a, b, c, d) && caps == Capacities(2, 3, 1) && v == View([b, c], [a, b, c], [d])
    ensures Reached(caps, v, [b.key, a.key], View([b, a], [b, c, a], [d]))
  {
    Rotations(b, c, c);
    FromGpu(caps, v, [], v, 0, [b.key], View([c, b], [a, b, c], [d]));
    LargeGpuDram(caps, v, [b.key], a, b, c, d);
    assert [b.key] + [a.key] == [b.key, a.key];
  }

  lemma LargeGpuDram(caps: Capacities, v: View, keys: seq<BlockId>, a: Slot, b: Slot, c: Slot, d: Slot)
    requires FourBlocks(a, b, c, d) && caps == Capacities(2, 3, 1)
    requires Reached(caps, v, keys, View([c, b], [a, b, c], [d]))
    ensures Reached(caps, v, keys + [a.key], View([b, a], [b, c, a], [d]))
  {
    Rotations(a, b, c);
    Insertions(c, b, a, a);
    FromDram(caps, v, keys, View([c, b], [a, b, c], [d]), 0, keys + [a.key], View([b, a], [b, c, a], [d]));
  }

  lemma LargeGpuFs(caps: Capacities, v: View, keys: seq<BlockId>, a: Slot, b: Slot, c: Slot, d: Slot)
    requires FourBlocks(a, b, c, d) && caps == Capacities(2, 3, 1)
    requires Reached(caps, v, keys, View([b, a], [b, c, a], [d]))
    ensures Reached(caps, v, keys + [d.key], View([a, d], [c, a, d], [d]))
  {
    Insertions(b, c, a, d);
    Insertions(b, a, d, d);
    Rotations(d, d, d);
    var now, next := View([b, a], [b, c, a], [d]), View([a, d], [c, a, d], [d]);
    assert Lacks(now.gpu, d.key) && Lacks(now.dram, d.key);
    assert Distinct(next.gpu) && Distinct(next.dram) && Distinct(next.fs);
    FromFs(caps, v, keys, now, 0, keys + [d.key], next);
  }

  lemma LargeGpuStops(caps: Capacities, v: View, keys: seq<BlockId>, a: Slot, b: Slot, c: Slot, d: Slot)
    requires FourBlocks(a, b, c, d) && caps == Capacities(2, 3, 1)
    requires Reached(caps, v, keys, View([b, a], [b, c, a], [d]))
    ensures |WalkBlocks(caps, v, keys + [d.key] + [b.key] + [d.key]).hits| == |keys| + 1
  {
    var third := keys + [d.key];
    LargeGpuFs(caps, v, keys, a, b, c, d);
    NoHit(caps, WalkBlocks(caps, v, third), b.key);
    WalkOneMore(caps, v, third, b.key);
    WalkOneMore(caps, v, third + [b.key], d.key);
    AvailableHits(caps, v, third);
  }

  lemma {:induction false} AvailableHits(caps: Capacities, v: View, keys: seq<BlockId>)
    requires WalkBlocks(caps, v, keys).available
    ensures |WalkBlocks(caps, v, keys).hits| == |keys|
  {
    if keys != [] {
      AvailableHits(caps, v, keys[..|keys| - 1]);
    }
  }

  function Written(keys: seq<BlockId>, producer: nat): seq<Slot> {
    seq(|keys|, i requires 0 <= i < |keys| => Slot(keys[i], producer))
  }

  // Writing new blocks appends them to a stack.
  lemma {:induction false} PushAllNew(s: seq<Slot>, keys: seq<BlockId>, producer: nat)
    requires NoRepeats(keys) && forall k :: k in keys ==> k !in KeySet(s)
    ensures PushAll(s, keys, producer) == s + Written(keys, producer)
  {
    if keys != [] {
      var front, last := keys[..|keys| - 1], keys[|keys| - 1];
      PushAllNew(s, front, producer);
      NotWritten(s, front, producer, last);
      WithoutAbsent(s + Written(front, producer), {last});
      assert (s + Written(front, producer)) + [Slot(last, producer)] == s + Written(keys, producer);
    }
  }

  lemma NotWritten(s: seq<Slot>, keys: seq<BlockId>, producer: nat, key: BlockId)
    requires key !in KeySet(s) && key !in keys
    ensures KeySet(s + Written(keys, producer)) !! {key}
  {
    KeySetConcat(s, Written(keys, producer));
    assert forall x :: x in Written(keys, producer) ==> x.key in keys;
  }

  // One more record of blocks not in the stack yet.
  lemma StackOneMore(records: seq<TraceRecord>, nodeOf: seq<nat>, record: TraceRecord, at: nat, node: Option<nat>)
    requires |nodeOf| == |records| && NoRepeats(record.hashIds)
    requires forall k :: k in record.hashIds ==> k !in KeySet(WriteStack(records, nodeOf, node))
    ensures WriteStack(records + [record], nodeOf + [at], node) ==
            WriteStack(records, nodeOf, node) + if node == None || node == Some(at) then Written(record.hashIds, |records|) else []
  {
    assert (records + [record])[..|records|] == records && (nodeOf + [at])[..|nodeOf|] == nodeOf;
    PushAllNew(WriteStack(records, nodeOf, node), record.hashIds, |records|);
  }

  // What the nodes have written after the first record, and after the second.
  lemma FirstStack(node: Option<nat>)
    ensures WriteStack([Repeating()[0]], [0], node) ==
            if node == None || node == Some(0) then [Slot(1, 0), Slot(2, 0), Slot(0, 0)] else []
  {
    StackOneMore([], [], Repeating()[0], 0, node);
    assert [] + [Repeating()[0]] == [Repeating()[0]] && [] + [0] == [0];
    assert Written(Repeating()[0].hashIds, 0) == [Slot(1, 0), Slot(2, 0), Slot(0, 0)];
  }

  lemma SecondStack(node: Option<nat>)
    requires node == None || node == Some(0)
    ensures WriteStack([Repeating()[0], Repeating()[1]], [0, 1], node) ==
            [Slot(1, 0), Slot(2, 0), Slot(0, 0)] + if node == None then [Slot(3, 1)] else []
  {
    FirstStack(node);
    StackOneMore([Repeating()[0]], [0], Repeating()[1], 1, node);
    assert [Repeating()[0]] + [Repeating()[1]] == [Repeating()[0], Repeating()[1]] && [0] + [1] == [0, 1];
    assert Written(Repeating()[1].hashIds, 1) == [Slot(3, 1)];
  }

  // A record that starts with a block nobody has written adds no hit tokens.
  lemma NewBlocksMiss(caps: Capacities, nodes: nat, records: seq<TraceRecord>, nodeOf: seq<nat>)
    requires Assigned(nodes, records, nodeOf) && records != [] && records[|records| - 1].hashIds != []
    requires var k := |records| - 1; records[k].hashIds[0] !in KeySet(WriteStack(records[..k], nodeOf[..k], None))
    ensures RunTokens(caps, nodes, records, nodeOf).Hit() == RunTokens(caps, nodes, records[..|records| - 1], nodeOf[..|records| - 1]).Hit()
  {
    var k := |records| - 1;
    var own, shared := HitsFromStacks(caps, nodes, records, nodeOf);
    SettledHits(caps, own, shared, records[k].hashIds);
    NewestMonotone(own, Max(caps.gpu, caps.dram), |own| + Max(caps.gpu, caps.dram));
    NewestMonotone(shared, caps.fs, |shared| + caps.fs);
    LastAddsHits(caps, nodes, records, nodeOf);
  }

  // The first two records hit nothing.
  lemma FirstTwoMiss(caps: Capacities)
    ensures RunTokens(caps, 2, Repeating()[..2], [0, 1]).Hit() == 0
  {
    FirstStack(None);
    var two, one := [Repeating()[0], Repeating()[1]], [Repeating()[0]];
    assert Repeating()[..2] == two && two[..1] == one && [0, 1][..1] == [0] && one[..0] == [] && [0][..0] == [];
    NewBlocksMiss(caps, 2, two, [0, 1]);
    NewBlocksMiss(caps, 2, one, [0]);
  }

  lemma UnitWeights()
    ensures SumTo(BlockWeights(5, 5), 3) < SumTo(BlockWeights(5, 5), 5)
  {
    assert BlockWeights(5, 5)[4] == 1 && BlockWeights(5, 5)[3] == 1;
  }

  // The last record, given what it hits.
  lemma LastRecord(caps: Capacities) returns (own: seq<Slot>, shared: seq<Slot>)
    ensures own == [Slot(1, 0), Slot(2, 0), Slot(0, 0)] && shared == own + [Slot(3, 1)]
    ensures LastHits(caps, 2, Repeating(), [0, 1, 0]) == WalkBlocks(caps, Settled(caps, own, shared), [2, 1, 3, 2, 3]).hits
  {
    var r, on := Repeating(), [0, 1, 0];
    assert r[..2] == [r[0], r[1]] && on[..2] == [0, 1];
    own, shared := HitsFromStacks(caps, 2, r, on);
    SecondStack(Some(0));
    SecondStack(None);
  }

  lemma OnlyLastHits(caps: Capacities)
    ensures var hits := LastHits(caps, 2, Repeating(), [0, 1, 0]);
            RunTokens(caps, 2, Repeating(), [0, 1, 0]).Hit() == SumTo(BlockWeights(5, 5), |hits|)
  {
    var r, on := Repeating(), [0, 1, 0];
    assert on[..2] == [0, 1];
    FirstTwoMiss(caps);
    LastAddsHits(caps, 2, r, on);
    var _, _ := HitsFromStacks(caps, 2, r, on);
    RecordTokensConserved(r[2], LastHits(caps, 2, r, on));
  }

  // With repeats a larger GPU tier can cost hits: here two blocks of it hit less than one.
  lemma RepeatsBreakMonotonicity()
    ensures var small, large := Capacities(1, 3, 1), Capacities(2, 3, 1);
            && |LastHits(small, 2, Repeating(), [0, 1, 0])| == 5
            && |LastHits(large, 2, Repeating(), [0, 1, 0])| == 3
            && RunTokens(large, 2, Repeating(), [0, 1, 0]).Hit() < RunTokens(small, 2, Repeating(), [0, 1, 0]).Hit()
  {
    SmallGpuHitsFive();
    LargeGpuHitsThree();
    OnlyLastHits(Capacities(1, 3, 1));
    OnlyLastHits(Capacities(2, 3, 1));
    UnitWeights();
  }

  lemma SmallGpuHitsFive()
    ensures var caps := Capacities(1, 3, 1);
            |LastHits(caps, 2, Repeating(), [0, 1, 0])| == 5
  {
    var caps := Capacities(1, 3, 1);
    var own, shared := LastRecord(caps);
    var v := Settled(caps, own, shared);
    var keys := [2, 1] + [3] + [2] + [3];
    SmallGpuStarts(caps, v, Slot(1, 0), Slot(2, 0), Slot(0, 0), Slot(3, 1));
    SmallGpuEnds(caps, v, [2, 1], Slot(1, 0), Slot(2, 0), Slot(0, 0), Slot(3, 1));
    AvailableHits(caps, v, keys);
    assert keys == [2, 1, 3, 2, 3];
  }

  lemma LargeGpuHitsThree()
    ensures var caps := Capacities(2, 3, 1);
            |LastHits(caps, 2, Repeating(), [0, 1, 0])| == 3
  {
    var caps := Capacities(2, 3, 1);
    var own, shared := LastRecord(caps);
    var v := Settled(caps, own, shared);
    LargeGpuStarts(caps, v, Slot(1, 0), Slot(2, 0), Slot(0, 0), Slot(3, 1));
    LargeGpuStops(caps, v, [2, 1], Slot(1, 0), Slot(2, 0), Slot(0, 0), Slot(3, 1));
    assert [2, 1] + [3] + [2] + [3] == [2, 1, 3, 2, 3];
  }
}
