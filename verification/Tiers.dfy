/**
 Serving one trace record from three cache tiers: the prefix-gated lookup with its
 promotions, the write-through at the end of the record, and what both mean in
 terms of the unbounded LRU stacks of the writes made so far.
 */
module Tiers {
  import opened Wrappers
  import opened Lru
  import opened Prefixes

  datatype TraceRecord = TraceRecord(timestamp: real, inputLength: nat, hashIds: seq<BlockId>)

  datatype Capacities = Capacities(gpu: nat, dram: nat, fs: nat)

  datatype Tier = Gpu | Dram | Fs

  datatype CacheHit = CacheHit(tier: Tier, producer: nat)

  // The caches one node sees: its own GPU and DRAM tier, and the shared FS tier.
  datatype View = View(gpu: seq<Slot>, dram: seq<Slot>, fs: seq<Slot>)

  // A lookup in progress: the prefix hit so far, and whether it is still unbroken.
  datatype Walk = Walk(view: View, available: bool, hits: seq<CacheHit>)

  function Step(caps: Capacities, w: Walk, key: BlockId): Walk {
    var v := w.view;
    if !w.available then w
    else match Find(v.gpu, key)
      case Some(p) => Walk(v.(gpu := Touch(v.gpu, key)), true, w.hits + [CacheHit(Gpu, p)])
      case None =>
        match Find(v.dram, key)
        case Some(p) =>
          Walk(v.(dram := Touch(v.dram, key), gpu := Insert(v.gpu, caps.gpu, Slot(key, p))),
               true, w.hits + [CacheHit(Dram, p)])
        case None =>
          match Find(v.fs, key)
          case Some(p) =>
            Walk(View(Insert(v.gpu, caps.gpu, Slot(key, p)), Insert(v.dram, caps.dram, Slot(key, p)), Touch(v.fs, key)),
                 true, w.hits + [CacheHit(Fs, p)])
          case None => w.(available := false)
  }

  function WalkBlocks(caps: Capacities, v: View, keys: seq<BlockId>): (w: Walk)
    ensures |w.hits| <= |keys|
    ensures w.available <==> |w.hits| == |keys|
  {
    if keys == [] then Walk(v, true, [])
    else Step(caps, WalkBlocks(caps, v, keys[..|keys| - 1]), keys[|keys| - 1])
  }

  function Write(caps: Capacities, v: View, keys: seq<BlockId>, producer: nat): View {
    View(InsertAll(v.gpu, caps.gpu, keys, producer),
         InsertAll(v.dram, caps.dram, keys, producer),
         InsertAll(v.fs, caps.fs, keys, producer))
  }

  // What the tiers hold between records, given the stacks of their writes.
  function Settled(caps: Capacities, node: seq<Slot>, shared: seq<Slot>): View {
    View(Newest(node, caps.gpu), Newest(node, caps.dram), Newest(shared, caps.fs))
  }

  function Max(a: nat, b: nat): nat { if a >= b then a else b }

  // ------------------------------------------- lookups leave no trace behind

  // Every change a lookup makes to a tier is a push of one of the record's own
  // blocks, so each tier still shows the newest slots of some stack that agrees
  // with the settled one outside the record.
  lemma {:induction false} WalkPushesOwnBlocks(caps: Capacities, node: seq<Slot>, shared: seq<Slot>,
                                               keys: seq<BlockId>, own: set<BlockId>)
      returns (gpu: seq<Slot>, dram: seq<Slot>, fs: seq<Slot>)
    requires Distinct(node) && Distinct(shared) && SetOf(keys) <= own
    ensures Distinct(gpu) && Distinct(dram) && Distinct(fs)
    ensures var v := WalkBlocks(caps, Settled(caps, node, shared), keys).view;
            v.gpu == Newest(gpu, caps.gpu) && v.dram == Newest(dram, caps.dram) && v.fs == Newest(fs, caps.fs)
    ensures Without(gpu, own) == Without(node, own)
    ensures Without(dram, own) == Without(node, own)
    ensures Without(fs, own) == Without(shared, own)
  {
    if keys == [] {
      return node, node, shared;
    }
    var front, key := keys[..|keys| - 1], keys[|keys| - 1];
    assert forall k :: k in SetOf(front) ==> k in keys;
    gpu, dram, fs := WalkPushesOwnBlocks(caps, node, shared, front, own);
    var w := WalkBlocks(caps, Settled(caps, node, shared), front);
    if w.available {
      if Find(w.view.gpu, key).Some? {
        gpu := Touched(gpu, caps.gpu, key, own);
      } else if Find(w.view.dram, key).Some? {
        var x := Slot(key, Find(w.view.dram, key).value);
        dram := Touched(dram, caps.dram, key, own);
        gpu := Promoted(gpu, caps.gpu, x, own);
      } else if Find(w.view.fs, key).Some? {
        var x := Slot(key, Find(w.view.fs, key).value);
        fs := Touched(fs, caps.fs, key, own);
        dram := Promoted(dram, caps.dram, x, own);
        gpu := Promoted(gpu, caps.gpu, x, own);
      }
    }
  }

  lemma Promoted(stack: seq<Slot>, capacity: nat, x: Slot, own: set<BlockId>) returns (pushed: seq<Slot>)
    requires Distinct(stack) && x.key in own
    ensures Distinct(pushed) && Without(pushed, own) == Without(stack, own)
    ensures Insert(Newest(stack, capacity), capacity, x) == Newest(pushed, capacity)
  {
    pushed := Push(stack, x);
    PushDistinct(stack, x);
    PushOutside(stack, x, own);
    InsertIsPush(stack, capacity, x);
  }

  lemma Touched(stack: seq<Slot>, capacity: nat, key: BlockId, own: set<BlockId>) returns (pushed: seq<Slot>)
    requires Distinct(stack) && key in own && Find(Newest(stack, capacity), key).Some?
    ensures Distinct(pushed) && Without(pushed, own) == Without(stack, own)
    ensures Touch(Newest(stack, capacity), key) == Newest(pushed, capacity)
  {
    var x := Slot(key, Find(Newest(stack, capacity), key).value);
    pushed := Push(stack, x);
    PushDistinct(stack, x);
    PushOutside(stack, x, own);
    TouchIsPush(stack, capacity, key);
  }

  // Lookup irrelevance: after the write-through the tiers are settled again on
  // the pushed stacks, whatever was looked up, promoted or evicted before.
  lemma WriteSettles(caps: Capacities, node: seq<Slot>, shared: seq<Slot>, keys: seq<BlockId>, producer: nat)
    requires Distinct(node) && Distinct(shared)
    ensures Write(caps, WalkBlocks(caps, Settled(caps, node, shared), keys).view, keys, producer) ==
            Settled(caps, PushAll(node, keys, producer), PushAll(shared, keys, producer))
  {
    var own := SetOf(keys);
    var gpu, dram, fs := WalkPushesOwnBlocks(caps, node, shared, keys, own);
    InsertAllIsPushAll(gpu, caps.gpu, keys, producer);
    InsertAllIsPushAll(dram, caps.dram, keys, producer);
    InsertAllIsPushAll(fs, caps.fs, keys, producer);
    WritesAbsorb(gpu, node, keys, producer);
    WritesAbsorb(dram, node, keys, producer);
    WritesAbsorb(fs, shared, keys, producer);
  }

  // -------------------------------------------------- how long the prefix is

  lemma InsertKeys(cache: seq<Slot>, capacity: nat, x: Slot)
    requires Distinct(cache)
    ensures Distinct(Insert(cache, capacity, x))
    ensures KeySet(Insert(cache, capacity, x)) <= KeySet(cache) + {x.key}
  {
    PushDistinct(cache, x);
    NewestDistinct(Push(cache, x), capacity);
  }

  lemma TouchKeys(cache: seq<Slot>, key: BlockId)
    requires Distinct(cache)
    ensures Distinct(Touch(cache, key))
    ensures KeySet(Touch(cache, key)) == KeySet(cache)
  {
    FindSpec(cache, key);
    if Find(cache, key).Some? {
      PushDistinct(cache, Slot(key, Find(cache, key).value));
    }
  }

  ghost predicate DistinctView(v: View) {
    Distinct(v.gpu) && Distinct(v.dram) && Distinct(v.fs)
  }

  lemma StepKeys(caps: Capacities, w: Walk, key: BlockId)
    requires DistinctView(w.view)
    ensures var v, v' := w.view, Step(caps, w, key).view;
            && DistinctView(v')
            && KeySet(v'.fs) == KeySet(v.fs)
            && KeySet(v'.dram) <= KeySet(v.dram) + KeySet(v.fs)
            && KeySet(v'.gpu) <= KeySet(v.gpu) + KeySet(v.dram) + KeySet(v.fs)
            && (key in KeySet(v.gpu) + KeySet(v.dram) ==> KeySet(v'.dram) == KeySet(v.dram))
            && (key in KeySet(v.gpu) ==> KeySet(v'.gpu) == KeySet(v.gpu))
    ensures w.available ==> (Step(caps, w, key).available <==>
                             key in KeySet(w.view.gpu) + KeySet(w.view.dram) + KeySet(w.view.fs))
  {
    var v := w.view;
    FindSpec(v.gpu, key);
    FindSpec(v.dram, key);
    FindSpec(v.fs, key);
    TouchKeys(v.gpu, key);
    TouchKeys(v.dram, key);
    TouchKeys(v.fs, key);
    forall p { InsertKeys(v.gpu, caps.gpu, Slot(key, p)); }
    forall p { InsertKeys(v.dram, caps.dram, Slot(key, p)); }
  }

  // No lookup ever finds a block outside the initial contents of the three tiers.
  lemma {:induction false} WalkWithin(caps: Capacities, v: View, keys: seq<BlockId>)
    requires DistinctView(v)
    ensures var w := WalkBlocks(caps, v, keys);
            && DistinctView(w.view)
            && KeySet(w.view.fs) == KeySet(v.fs)
            && KeySet(w.view.dram) <= KeySet(v.dram) + KeySet(v.fs)
            && KeySet(w.view.gpu) <= KeySet(v.gpu) + KeySet(v.dram) + KeySet(v.fs)
            && |w.hits| <= LongestIn(keys, KeySet(v.gpu) + KeySet(v.dram) + KeySet(v.fs))
  {
    if keys != [] {
      var front, key := keys[..|keys| - 1], keys[|keys| - 1];
      var w := WalkBlocks(caps, v, front);
      WalkWithin(caps, v, front);
      StepKeys(caps, w, key);
      LongestInExtend(front, key, KeySet(v.gpu) + KeySet(v.dram) + KeySet(v.fs));
      assert keys == front + [key];
    }
  }

  // A prefix held by the FS tier is hit in full: that tier loses nothing during a lookup.
  lemma {:induction false} WalkFindsFs(caps: Capacities, v: View, keys: seq<BlockId>)
    requires DistinctView(v)
    ensures |WalkBlocks(caps, v, keys).hits| >= LongestIn(keys, KeySet(v.fs))
  {
    if keys != [] {
      var front, key := keys[..|keys| - 1], keys[|keys| - 1];
      WalkFindsFs(caps, v, front);
      WalkWithin(caps, v, front);
      StepKeys(caps, WalkBlocks(caps, v, front), key);
      LongestInExtend(front, key, KeySet(v.fs));
      assert keys == front + [key];
    }
  }

  // A prefix held by the node's own two tiers is hit in full: the larger one
  // holds all of it and, as nothing comes from FS meanwhile, evicts none of it.
  lemma {:induction false} WalkFindsOwn(caps: Capacities, v: View, keys: seq<BlockId>)
    requires DistinctView(v)
    requires KeySet(v.gpu) <= KeySet(v.dram) || KeySet(v.dram) <= KeySet(v.gpu)
    ensures |WalkBlocks(caps, v, keys).hits| >= LongestIn(keys, KeySet(v.gpu) + KeySet(v.dram))
    ensures var w := WalkBlocks(caps, v, keys).view;
            LongestIn(keys, KeySet(v.gpu) + KeySet(v.dram)) == |keys| ==>
              if KeySet(v.gpu) <= KeySet(v.dram)
              then KeySet(w.dram) == KeySet(v.dram) && KeySet(w.gpu) <= KeySet(v.dram)
              else KeySet(w.gpu) == KeySet(v.gpu)
  {
    if keys != [] {
      var front, key := keys[..|keys| - 1], keys[|keys| - 1];
      WalkFindsOwn(caps, v, front);
      WalkWithin(caps, v, front);
      var w := WalkBlocks(caps, v, front);
      StepKeys(caps, w, key);
      if LongestIn(front, KeySet(v.gpu) + KeySet(v.dram)) == |front| && key in KeySet(v.gpu) + KeySet(v.dram) {
        StepOwnKeys(caps, w, key);
      }
      LongestInExtend(front, key, KeySet(v.gpu) + KeySet(v.dram));
      assert keys == front + [key];
    }
  }

  // A block found in DRAM can only bring a DRAM block into the GPU tier.
  lemma StepOwnKeys(caps: Capacities, w: Walk, key: BlockId)
    requires DistinctView(w.view)
    requires key in KeySet(w.view.gpu) + KeySet(w.view.dram)
    ensures KeySet(Step(caps, w, key).view.gpu) <= KeySet(w.view.gpu) + KeySet(w.view.dram)
  {
    var v := w.view;
    FindSpec(v.gpu, key);
    FindSpec(v.dram, key);
    TouchKeys(v.gpu, key);
    forall p { InsertKeys(v.gpu, caps.gpu, Slot(key, p)); }
  }

  lemma SettledDistinct(caps: Capacities, node: seq<Slot>, shared: seq<Slot>)
    requires Distinct(node) && Distinct(shared)
    ensures DistinctView(Settled(caps, node, shared))
  {
    NewestDistinct(node, caps.gpu);
    NewestDistinct(node, caps.dram);
    NewestDistinct(shared, caps.fs);
  }

  // On settled tiers the hit prefix lies between what the node's larger tier or
  // the FS tier holds alone and what they hold together.
  lemma SettledHits(caps: Capacities, node: seq<Slot>, shared: seq<Slot>, keys: seq<BlockId>)
    requires Distinct(node) && Distinct(shared)
    ensures var n := |WalkBlocks(caps, Settled(caps, node, shared), keys).hits|;
            var own := KeySet(Newest(node, Max(caps.gpu, caps.dram)));
            var fs := KeySet(Newest(shared, caps.fs));
            && LongestIn(keys, own) <= n
            && LongestIn(keys, fs) <= n
            && n <= LongestIn(keys, own + fs)
  {
    var v := Settled(caps, node, shared);
    SettledDistinct(caps, node, shared);
    if caps.gpu <= caps.dram {
      NewestMonotone(node, caps.gpu, caps.dram);
    } else {
      NewestMonotone(node, caps.dram, caps.gpu);
    }
    assert KeySet(v.gpu) + KeySet(v.dram) == KeySet(Newest(node, Max(caps.gpu, caps.dram)));
    WalkWithin(caps, v, keys);
    WalkFindsFs(caps, v, keys);
    WalkFindsOwn(caps, v, keys);
  }

  // With one node all tiers share one stack, and the three of them hit exactly
  // what a single LRU cache of the largest capacity holds.
  lemma SingleStackHits(caps: Capacities, stack: seq<Slot>, keys: seq<BlockId>)
    requires Distinct(stack)
    ensures |WalkBlocks(caps, Settled(caps, stack, stack), keys).hits| ==
            LongestIn(keys, KeySet(Newest(stack, Max(Max(caps.gpu, caps.dram), caps.fs))))
  {
    SettledHits(caps, stack, stack, keys);
    var own := Max(caps.gpu, caps.dram);
    if own <= caps.fs {
      NewestMonotone(stack, own, caps.fs);
      assert KeySet(Newest(stack, own)) + KeySet(Newest(stack, caps.fs)) == KeySet(Newest(stack, caps.fs));
    } else {
      NewestMonotone(stack, caps.fs, own);
      assert KeySet(Newest(stack, own)) + KeySet(Newest(stack, caps.fs)) == KeySet(Newest(stack, own));
    }
  }
}
