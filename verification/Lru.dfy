/**
 The LRU cache of the trace analyser, kept as an insertion-ordered list of
 (key, producer) slots, oldest first, and the theory of the unbounded LRU stack:
 a cache of capacity c always shows the c newest slots of such a stack.
 */
module Lru {
  import opened Wrappers

  // Block ids are only ever compared for equality.
  type BlockId = nat

  // One item of the ordered dictionary: the key and the index of the record that wrote it.
  datatype Slot = Slot(key: BlockId, producer: nat)

  function KeySet(s: seq<Slot>): set<BlockId> {
    set x | x in s :: x.key
  }

  ghost predicate Distinct(s: seq<Slot>) {
    forall i, j :: 0 <= i < j < |s| ==> s[i].key != s[j].key
  }

  function Newest(s: seq<Slot>, capacity: nat): seq<Slot> {
    if |s| <= capacity then s else s[|s| - capacity..]
  }

  function Without(s: seq<Slot>, keys: set<BlockId>): seq<Slot> {
    if s == [] then []
    else
      var rest := Without(s[..|s| - 1], keys);
      if s[|s| - 1].key in keys then rest else rest + [s[|s| - 1]]
  }

  // Stack update: x becomes the newest slot and replaces any slot with its key.
  function Push(s: seq<Slot>, x: Slot): seq<Slot> {
    Without(s, {x.key}) + [x]
  }

  function PushAll(s: seq<Slot>, keys: seq<BlockId>, producer: nat): seq<Slot> {
    if keys == [] then s
    else Push(PushAll(s, keys[..|keys| - 1], producer), Slot(keys[|keys| - 1], producer))
  }

  // What a cache operation returns and leaves behind.
  function Find(s: seq<Slot>, key: BlockId): Option<nat> {
    if s == [] then None
    else if s[|s| - 1].key == key then Some(s[|s| - 1].producer)
    else Find(s[..|s| - 1], key)
  }

  function Touch(s: seq<Slot>, key: BlockId): seq<Slot> {
    match Find(s, key)
    case None => s
    case Some(p) => Push(s, Slot(key, p))
  }

  function Insert(s: seq<Slot>, capacity: nat, x: Slot): seq<Slot> {
    if capacity == 0 then s else Newest(Push(s, x), capacity)
  }

  function InsertAll(s: seq<Slot>, capacity: nat, keys: seq<BlockId>, producer: nat): seq<Slot> {
    if keys == [] then s
    else Insert(InsertAll(s, capacity, keys[..|keys| - 1], producer), capacity, Slot(keys[|keys| - 1], producer))
  }

  function SetOf(keys: seq<BlockId>): set<BlockId> {
    set k | k in keys
  }

  // ---------------------------------------------------------------- the class

  class LRUCache {
    const capacity: nat
    var items: seq<Slot>

    ghost predicate Valid()
      reads this
    {
      Distinct(items) && |items| <= capacity
    }

    constructor (capacity: int)
      ensures Valid() && items == []
      ensures this.capacity == if capacity < 0 then 0 else capacity
    {
      this.capacity := if capacity < 0 then 0 else capacity;
      items := [];
    }

    method IndexOf(key: BlockId) returns (index: Option<nat>)
      ensures index.None? ==> key !in KeySet(items)
      ensures index.Some? ==> index.value < |items| && items[index.value].key == key
    {
      for i := 0 to |items|
        invariant forall j :: 0 <= j < i ==> items[j].key != key
      {
        if items[i].key == key {
          return Some(i);
        }
      }
      return None;
    }

    method Get(key: BlockId) returns (entry: Option<nat>)
      requires Valid()
      modifies this
      ensures Valid()
      ensures entry == Find(old(items), key)
      ensures items == Touch(old(items), key)
    {
      if capacity <= 0 {
        return None;
      }
      var index := IndexOf(key);
      FindSpec(items, key);
      if index == None {
        return None;
      }
      var i := index.value;
      var found := items[i];
      MoveToEnd(items, i, found);
      PushDistinct(items, found);
      items := items[..i] + items[i + 1..] + [found];
      entry := Some(found.producer);
    }

    method Touched(key: BlockId) returns (hit: bool)
      requires Valid()
      modifies this
      ensures Valid()
      ensures hit <==> key in KeySet(old(items))
      ensures items == Touch(old(items), key)
    {
      FindSpec(items, key);
      var entry := Get(key);
      hit := entry != None;
    }

    method Put(key: BlockId, producer: nat)
      requires Valid()
      modifies this
      ensures Valid()
      ensures items == Insert(old(items), capacity, Slot(key, producer))
    {
      if capacity <= 0 {
        return;
      }
      var x := Slot(key, producer);
      PushDistinct(items, x);
      ghost var pushed := Push(items, x);
      var index := IndexOf(key);
      if index != None {
        var i := index.value;
        MoveToEnd(items, i, x);
        items := items[..i] + items[i + 1..] + [x];
      } else {
        WithoutAbsent(items, {key});
        items := items + [x];
      }
      assert items == pushed;
      while |items| > capacity
        invariant |items| <= |pushed| && items == pushed[|pushed| - |items|..]
        invariant Newest(items, capacity) == Newest(pushed, capacity)
      {
        items := items[1..];
      }
    }
  }

  // ------------------------------------------------------------- basic theory

  lemma {:induction false} FindSpec(s: seq<Slot>, key: BlockId)
    requires Distinct(s)
    ensures Find(s, key).Some? <==> key in KeySet(s)
    ensures forall i :: 0 <= i < |s| && s[i].key == key ==> Find(s, key) == Some(s[i].producer)
  {
    if s != [] {
      var front := s[..|s| - 1];
      FindSpec(front, key);
      assert s == front + [s[|s| - 1]];
      assert KeySet(s) == KeySet(front) + {s[|s| - 1].key};
    }
  }

  lemma KeySetConcat(a: seq<Slot>, b: seq<Slot>)
    ensures KeySet(a + b) == KeySet(a) + KeySet(b)
  {
    assert forall x :: x in a + b <==> x in a || x in b;
  }

  lemma {:induction false} WithoutConcat(a: seq<Slot>, b: seq<Slot>, keys: set<BlockId>)
    ensures Without(a + b, keys) == Without(a, keys) + Without(b, keys)
  {
    if b == [] {
      assert a + b == a;
    } else {
      var front := b[..|b| - 1];
      assert (a + b)[..|a + b| - 1] == a + front;
      WithoutConcat(a, front, keys);
    }
  }

  lemma {:induction false} WithoutKeys(s: seq<Slot>, keys: set<BlockId>)
    ensures KeySet(Without(s, keys)) == KeySet(s) - keys
    ensures forall x :: x in Without(s, keys) <==> x in s && x.key !in keys
    ensures |Without(s, keys)| <= |s|
  {
    if s != [] {
      WithoutKeys(s[..|s| - 1], keys);
      assert s == s[..|s| - 1] + [s[|s| - 1]];
      assert forall x :: x in s <==> x in s[..|s| - 1] || x == s[|s| - 1];
    }
  }

  lemma {:induction false} WithoutDistinct(s: seq<Slot>, keys: set<BlockId>)
    requires Distinct(s)
    ensures Distinct(Without(s, keys))
  {
    if s != [] {
      var front := s[..|s| - 1];
      WithoutDistinct(front, keys);
      WithoutKeys(front, keys);
      var rest := Without(front, keys);
      forall i | 0 <= i < |rest| ensures rest[i].key != s[|s| - 1].key {
        assert rest[i] in front;
      }
    }
  }

  lemma {:induction false} WithoutAbsent(s: seq<Slot>, keys: set<BlockId>)
    requires KeySet(s) !! keys
    ensures Without(s, keys) == s
  {
    if s != [] {
      var front := s[..|s| - 1];
      assert s == front + [s[|s| - 1]];
      KeySetConcat(front, [s[|s| - 1]]);
      assert s[|s| - 1] in s;
      WithoutAbsent(front, keys);
    }
  }

  lemma {:induction false} WithoutTwice(s: seq<Slot>, first: set<BlockId>, second: set<BlockId>)
    ensures Without(Without(s, first), second) == Without(s, first + second)
  {
    if s != [] {
      var last := s[|s| - 1];
      var rest := Without(s[..|s| - 1], first);
      WithoutTwice(s[..|s| - 1], first, second);
      if last.key !in first {
        assert (rest + [last])[..|rest + [last]| - 1] == rest;
      }
    }
  }

  // Removing slot i of a list with distinct keys and appending x is a push.
  lemma MoveToEnd(s: seq<Slot>, i: nat, x: Slot)
    requires Distinct(s) && i < |s| && s[i].key == x.key
    ensures Push(s, x) == s[..i] + s[i + 1..] + [x]
  {
    var a, b := s[..i], s[i + 1..];
    assert s == (a + [s[i]]) + b;
    WithoutConcat(a + [s[i]], b, {x.key});
    assert (a + [s[i]])[..|a|] == a;
    WithoutAbsent(a, {x.key});
    WithoutAbsent(b, {x.key});
  }

  lemma PushDistinct(s: seq<Slot>, x: Slot)
    requires Distinct(s)
    ensures Distinct(Push(s, x))
    ensures KeySet(Push(s, x)) == KeySet(s) + {x.key}
    ensures |s| <= |Push(s, x)| <= |s| + 1
    ensures |Push(s, x)| == |s| + (if x.key in KeySet(s) then 0 else 1)
  {
    WithoutDistinct(s, {x.key});
    WithoutKeys(s, {x.key});
    KeySetConcat(Without(s, {x.key}), [x]);
    if x.key in KeySet(s) {
      var i :| 0 <= i < |s| && s[i].key == x.key;
      MoveToEnd(s, i, x);
    } else {
      WithoutAbsent(s, {x.key});
    }
  }

  lemma NewestDistinct(s: seq<Slot>, capacity: nat)
    requires Distinct(s)
    ensures Distinct(Newest(s, capacity))
    ensures KeySet(Newest(s, capacity)) <= KeySet(s)
  {
    assert forall x :: x in Newest(s, capacity) ==> x in s;
  }

  // A larger cache over the same stack holds every block of a smaller one.
  lemma NewestMonotone(s: seq<Slot>, small: nat, large: nat)
    requires small <= large
    ensures KeySet(Newest(s, small)) <= KeySet(Newest(s, large))
    ensures Newest(Newest(s, large), small) == Newest(s, small)
  {
    var a, b := Newest(s, small), Newest(s, large);
    assert a == b[|b| - |a|..];
    assert forall x :: x in a ==> x in b;
  }

  // ------------------------------------------------------- the stack property

  // Inserting into a cache that shows the newest slots of a stack gives the
  // newest slots of the pushed stack.
  lemma InsertIsPush(stack: seq<Slot>, capacity: nat, x: Slot)
    requires Distinct(stack)
    ensures Insert(Newest(stack, capacity), capacity, x) == Newest(Push(stack, x), capacity)
  {
    var cache := Newest(stack, capacity);
    if capacity > 0 && |stack| > capacity {
      var older := stack[..|stack| - capacity];
      assert stack == older + cache;
      WithoutConcat(older, cache, {x.key});
      NewestDistinct(stack, capacity);
      PushDistinct(cache, x);
      NewestOfLonger(Without(older, {x.key}), Push(cache, x), capacity);
      assert Push(stack, x) == Without(older, {x.key}) + Push(cache, x);
    }
  }

  lemma NewestOfLonger(older: seq<Slot>, newer: seq<Slot>, capacity: nat)
    requires capacity <= |newer|
    ensures Newest(older + newer, capacity) == Newest(newer, capacity)
  {
  }

  // A hit moves the block to the newest end, exactly as a push of the found slot.
  lemma TouchIsPush(stack: seq<Slot>, capacity: nat, key: BlockId)
    requires Distinct(stack)
    requires Find(Newest(stack, capacity), key).Some?
    ensures Touch(Newest(stack, capacity), key) ==
            Newest(Push(stack, Slot(key, Find(Newest(stack, capacity), key).value)), capacity)
  {
    var cache := Newest(stack, capacity);
    var x := Slot(key, Find(cache, key).value);
    NewestDistinct(stack, capacity);
    FindSpec(cache, key);
    PushDistinct(cache, x);
    InsertIsPush(stack, capacity, x);
  }

  lemma {:induction false} PushAllDistinct(s: seq<Slot>, keys: seq<BlockId>, producer: nat)
    requires Distinct(s)
    ensures Distinct(PushAll(s, keys, producer))
    ensures KeySet(PushAll(s, keys, producer)) == KeySet(s) + SetOf(keys)
  {
    if keys != [] {
      var front := keys[..|keys| - 1];
      PushAllDistinct(s, front, producer);
      PushDistinct(PushAll(s, front, producer), Slot(keys[|keys| - 1], producer));
      assert keys == front + [keys[|keys| - 1]];
    }
  }

  lemma {:induction false} InsertAllIsPushAll(stack: seq<Slot>, capacity: nat, keys: seq<BlockId>, producer: nat)
    requires Distinct(stack)
    ensures InsertAll(Newest(stack, capacity), capacity, keys, producer) ==
            Newest(PushAll(stack, keys, producer), capacity)
  {
    if keys != [] {
      var front := keys[..|keys| - 1];
      InsertAllIsPushAll(stack, capacity, front, producer);
      PushAllDistinct(stack, front, producer);
      InsertIsPush(PushAll(stack, front, producer), capacity, Slot(keys[|keys| - 1], producer));
    }
  }

  // The result of writing all keys depends on the stack only through the slots
  // of the other keys: writes erase every trace of earlier use of the same keys.
  lemma {:induction false} PushAllSplits(s: seq<Slot>, keys: seq<BlockId>, producer: nat)
    ensures PushAll(s, keys, producer) == Without(s, SetOf(keys)) + PushAll([], keys, producer)
  {
    if keys == [] {
      WithoutAbsent(s, {});
      assert SetOf(keys) == {};
    } else {
      var front, last := keys[..|keys| - 1], keys[|keys| - 1];
      PushAllSplits(s, front, producer);
      assert keys == front + [last];
      assert SetOf(keys) == SetOf(front) + {last};
      PushSplits(s, SetOf(front), PushAll([], front, producer), Slot(last, producer));
    }
  }

  lemma PushSplits(s: seq<Slot>, written: set<BlockId>, newer: seq<Slot>, x: Slot)
    ensures Push(Without(s, written) + newer, x) == Without(s, written + {x.key}) + Push(newer, x)
  {
    WithoutConcat(Without(s, written), newer, {x.key});
    WithoutTwice(s, written, {x.key});
  }

  // Two stacks that agree outside the written keys are equal after the write.
  lemma WritesAbsorb(a: seq<Slot>, b: seq<Slot>, keys: seq<BlockId>, producer: nat)
    requires Without(a, SetOf(keys)) == Without(b, SetOf(keys))
    ensures PushAll(a, keys, producer) == PushAll(b, keys, producer)
  {
    PushAllSplits(a, keys, producer);
    PushAllSplits(b, keys, producer);
  }

  // A push of one of the keys to be written changes nothing outside them.
  lemma PushOutside(s: seq<Slot>, x: Slot, keys: set<BlockId>)
    requires x.key in keys
    ensures Without(Push(s, x), keys) == Without(s, keys)
  {
    WithoutConcat(Without(s, {x.key}), [x], keys);
    WithoutTwice(s, {x.key}, keys);
    assert {x.key} + keys == keys;
    assert [x][..0] == [];
  }
}
