/** Leaving out the null blocks that pad a block table, with the keys paired to them. */
module NullBlocks {
  // Among the first n pairs, those whose block is real.
  function RealPairs<T>(ids: seq<T>, blocks: seq<nat>, n: nat): (r: (seq<T>, seq<nat>))
    requires n <= |ids| && n <= |blocks|
    ensures |r.0| == |r.1|
  {
    if n == 0 then ([], [])
    else
      var (keys, slots) := RealPairs(ids, blocks, n - 1);
      if blocks[n - 1] == 0 then (keys, slots) else (keys + [ids[n - 1]], slots + [blocks[n - 1]])
  }

  // Lists of which one is empty are left alone; others are paired up to the shorter.
  function DropNull<T>(ids: seq<T>, blocks: seq<nat>): (seq<T>, seq<nat>) {
    if ids == [] || blocks == [] then (ids, blocks)
    else RealPairs(ids, blocks, if |ids| <= |blocks| then |ids| else |blocks|)
  }

  method DropNullBlocks<T>(ids: seq<T>, blocks: seq<nat>) returns (keys: seq<T>, slots: seq<nat>)
    ensures (keys, slots) == DropNull(ids, blocks)
  {
    if ids == [] || blocks == [] {
      return ids, blocks;
    }
    keys, slots := [], [];
    for i := 0 to if |ids| <= |blocks| then |ids| else |blocks|
      invariant (keys, slots) == RealPairs(ids, blocks, i)
    {
      if blocks[i] != 0 {
        keys, slots := keys + [ids[i]], slots + [blocks[i]];
      }
    }
  }

  lemma {:induction false} RealKeys<T>(ids: seq<T>, blocks: seq<nat>, n: nat, id: T)
    requires n <= |ids| && n <= |blocks|
    ensures id in RealPairs(ids, blocks, n).0 <==> exists i :: 0 <= i < n && ids[i] == id && blocks[i] != 0
  {
    if n > 0 {
      RealKeys(ids, blocks, n - 1, id);
    }
  }

  // The kept pairs are exactly the pairs with a real block.
  lemma {:induction false} RealPairsMeaning<T>(ids: seq<T>, blocks: seq<nat>, n: nat, id: T, block: nat)
    requires n <= |ids| && n <= |blocks|
    ensures var (keys, slots) := RealPairs(ids, blocks, n);
            (exists k :: 0 <= k < |keys| && keys[k] == id && slots[k] == block) <==>
            (exists i :: 0 <= i < n && ids[i] == id && blocks[i] == block && block != 0)
  {
    if n > 0 {
      RealPairsMeaning(ids, blocks, n - 1, id, block);
      var (early, slotsEarly) := RealPairs(ids, blocks, n - 1);
      var (keys, slots) := RealPairs(ids, blocks, n);
      assert forall k :: 0 <= k < |early| ==> keys[k] == early[k] && slots[k] == slotsEarly[k];
      if blocks[n - 1] != 0 {
        assert keys[|early|] == ids[n - 1] && slots[|early|] == blocks[n - 1];
      }
    }
  }
}
