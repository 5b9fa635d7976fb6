/** Prefixes of a list that lie inside a set, and list slices that clip at the ends. */
module Prefixes {
  // The length of the longest prefix whose elements all lie inside a set.
  function LongestIn<T(==)>(keys: seq<T>, inside: set<T>): (n: nat)
    ensures n <= |keys|
    ensures forall i :: 0 <= i < n ==> keys[i] in inside
    ensures n < |keys| ==> keys[n] !in inside
  {
    if keys == [] || keys[0] !in inside then 0 else 1 + LongestIn(keys[1..], inside)
  }

  lemma LongestInMonotone<T>(keys: seq<T>, small: set<T>, large: set<T>)
    requires small <= large
    ensures LongestIn(keys, small) <= LongestIn(keys, large)
  {
  }

  lemma {:induction false} LongestInExtend<T>(keys: seq<T>, key: T, inside: set<T>)
    ensures LongestIn(keys + [key], inside) ==
            if LongestIn(keys, inside) == |keys| && key in inside then |keys| + 1 else LongestIn(keys, inside)
  {
    var longer := keys + [key];
    var n, m := LongestIn(longer, inside), LongestIn(keys, inside);
    assert forall i :: 0 <= i < m ==> longer[i] == keys[i];
    assert m < |keys| ==> longer[m] == keys[m];
    assert longer[|keys|] == key;
  }

  // s[from:to] for bounds that may lie beyond the end, or cross.
  function Slice<T>(s: seq<T>, from: nat, to: nat): seq<T> {
    var hi := if to <= |s| then to else |s|;
    if from <= hi then s[from..hi] else []
  }
}
