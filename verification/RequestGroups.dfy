/**
 The union-find that groups requests sharing cached blocks. The class refines a
 plain partition: `classOf` names each member's class by its root, and two members
 share a class exactly when a chain of recorded unions connects them.
 */
module RequestGroups {
  import opened Wrappers

  // A cache hit by request `member` at time `at`.
  datatype Hit = Hit(member: nat, at: real)

  // ------------------------------------------------------------ the partition

  ghost predicate Linked(unions: seq<seq<nat>>, a: nat, b: nat) {
    exists u :: u in unions && a in u && b in u
  }

  ghost predicate Path(unions: seq<seq<nat>>, p: seq<nat>) {
    |p| > 0 && forall i :: 0 <= i < |p| - 1 ==> Linked(unions, p[i], p[i + 1])
  }

  ghost predicate PathBetween(unions: seq<seq<nat>>, p: seq<nat>, a: nat, b: nat) {
    Path(unions, p) && p[0] == a && p[|p| - 1] == b
  }

  ghost predicate Connected(unions: seq<seq<nat>>, a: nat, b: nat) {
    exists p :: PathBetween(unions, p, a, b)
  }

  ghost function Merged(classOf: seq<nat>, group: set<nat>, root: nat): seq<nat> {
    seq(|classOf|, i requires 0 <= i < |classOf| => if classOf[i] in group then root else classOf[i])
  }

  // The labels name exactly the connected components of the unions made so far.
  ghost predicate Partition(classOf: seq<nat>, unions: seq<seq<nat>>) {
    && (forall u, a, b :: u in unions && a in u && b in u ==> a < |classOf| && b < |classOf| && classOf[a] == classOf[b])
    && (forall i :: 0 <= i < |classOf| ==> Connected(unions, i, classOf[i]))
  }

  lemma ConnectedSelf(unions: seq<seq<nat>>, a: nat)
    ensures Connected(unions, a, a)
  {
    assert PathBetween(unions, [a], a, a);
  }

  lemma ConnectedLink(unions: seq<seq<nat>>, a: nat, b: nat)
    requires Linked(unions, a, b)
    ensures Connected(unions, a, b)
  {
    assert PathBetween(unions, [a, b], a, b);
  }

  lemma ConnectedSymmetric(unions: seq<seq<nat>>, a: nat, b: nat)
    requires Connected(unions, a, b)
    ensures Connected(unions, b, a)
  {
    var p :| PathBetween(unions, p, a, b);
    var q := seq(|p|, i requires 0 <= i < |p| => p[|p| - 1 - i]);
    forall i | 0 <= i < |q| - 1 ensures Linked(unions, q[i], q[i + 1]) {
      assert Linked(unions, p[|p| - 2 - i], p[|p| - 2 - i + 1]);
    }
    assert PathBetween(unions, q, b, a);
  }

  lemma ConnectedTransitive(unions: seq<seq<nat>>, a: nat, b: nat, c: nat)
    requires Connected(unions, a, b) && Connected(unions, b, c)
    ensures Connected(unions, a, c)
  {
    var p :| PathBetween(unions, p, a, b);
    var q :| PathBetween(unions, q, b, c);
    var r := p + q[1..];
    forall i | 0 <= i < |r| - 1 ensures Linked(unions, r[i], r[i + 1]) {
      if i >= |p| - 1 {
        assert Linked(unions, q[i - |p| + 1], q[i - |p| + 2]);
      }
    }
    assert PathBetween(unions, r, a, c);
  }

  lemma ConnectedMore(unions: seq<seq<nat>>, more: seq<nat>, a: nat, b: nat)
    requires Connected(unions, a, b)
    ensures Connected(unions + [more], a, b)
  {
    var p :| PathBetween(unions, p, a, b);
    forall i | 0 <= i < |p| - 1 ensures Linked(unions + [more], p[i], p[i + 1]) {
      assert Linked(unions, p[i], p[i + 1]);
      var u :| u in unions && p[i] in u && p[i + 1] in u;
      assert u in unions + [more];
    }
    assert PathBetween(unions + [more], p, a, b);
  }

  lemma {:induction false} PathKeepsLabel(classOf: seq<nat>, unions: seq<seq<nat>>, p: seq<nat>)
    requires Partition(classOf, unions) && Path(unions, p) && p[0] < |classOf|
    ensures p[|p| - 1] < |classOf| && classOf[p[|p| - 1]] == classOf[p[0]]
  {
    if |p| > 1 {
      assert Linked(unions, p[0], p[1]);
      forall i | 0 <= i < |p[1..]| - 1 ensures Linked(unions, p[1..][i], p[1..][i + 1]) {
        assert Linked(unions, p[i + 1], p[i + 2]);
      }
      PathKeepsLabel(classOf, unions, p[1..]);
    }
  }

  // Two requests carry the same classOf exactly when recorded unions connect them.
  lemma SameClassIffConnected(classOf: seq<nat>, unions: seq<seq<nat>>, a: nat, b: nat)
    requires Partition(classOf, unions) && a < |classOf| && b < |classOf|
    ensures classOf[a] == classOf[b] <==> Connected(unions, a, b)
  {
    if Connected(unions, a, b) {
      var p :| PathBetween(unions, p, a, b);
      PathKeepsLabel(classOf, unions, p);
    }
    if classOf[a] == classOf[b] {
      ConnectedSymmetric(unions, b, classOf[b]);
      ConnectedTransitive(unions, a, classOf[a], b);
    }
  }

  lemma PartitionAdd(classOf: seq<nat>, unions: seq<seq<nat>>)
    requires Partition(classOf, unions)
    ensures Partition(classOf + [|classOf|], unions)
  {
    ConnectedSelf(unions, |classOf|);
  }

  lemma PartitionMerge(classOf: seq<nat>, unions: seq<seq<nat>>, roots: seq<nat>, group: set<nat>, root: nat)
    requires Partition(classOf, unions)
    requires forall r :: r in roots ==> r < |classOf|
    requires group == set r | r in roots :: classOf[r]
    requires root in group
    ensures Partition(Merged(classOf, group, root), unions + [roots])
  {
    var unions' := unions + [roots];
    var r0 :| r0 in roots && classOf[r0] == root;
    forall i | 0 <= i < |classOf| ensures Connected(unions', i, Merged(classOf, group, root)[i]) {
      ConnectedMore(unions, roots, i, classOf[i]);
      if classOf[i] in group {
        var r :| r in roots && classOf[r] == classOf[i];
        ConnectedMore(unions, roots, r, classOf[r]);
        ConnectedSymmetric(unions', r, classOf[r]);
        assert roots in unions';
        ConnectedLink(unions', r, r0);
        ConnectedMore(unions, roots, r0, classOf[r0]);
        ConnectedTransitive(unions', i, classOf[i], r);
        ConnectedTransitive(unions', i, r, r0);
        ConnectedTransitive(unions', i, r0, root);
      }
    }
  }

  // -------------------------------------------------------------- class times

  function Later(a: Option<real>, b: Option<real>): Option<real> {
    if a.None? then b
    else if b.None? then a
    else Some(if a.value >= b.value then a.value else b.value)
  }

  // The latest hit by any member of the class named r.
  ghost function LatestHit(classOf: seq<nat>, hits: seq<Hit>, r: nat): Option<real> {
    if hits == [] then None
    else
      var h := hits[|hits| - 1];
      var before := LatestHit(classOf, hits[..|hits| - 1], r);
      if h.member < |classOf| && classOf[h.member] == r then Later(before, Some(h.at)) else before
  }

  // The earliest start of any member of the class named r, among members below n.
  ghost function EarliestStart(classOf: seq<nat>, start: seq<real>, r: nat, n: nat): Option<real>
    requires n <= |classOf| == |start|
  {
    if n == 0 then None
    else
      var before := EarliestStart(classOf, start, r, n - 1);
      if classOf[n - 1] != r then before
      else if before.Some? && before.value <= start[n - 1] then before
      else Some(start[n - 1])
  }

  // One lifetime for every class that has a hit, in order of the roots below n.
  ghost function Lifetimes(classOf: seq<nat>, start: seq<real>, hits: seq<Hit>, n: nat): seq<real>
    requires n <= |classOf| == |start|
  {
    if n == 0 then []
    else
      var before := Lifetimes(classOf, start, hits, n - 1);
      var last := LatestHit(classOf, hits, n - 1);
      var first := EarliestStart(classOf, start, n - 1, |classOf|);
      if classOf[n - 1] == n - 1 && last.Some? && first.Some? then before + [last.value - first.value] else before
  }

  lemma {:induction false} EarliestIsRootStart(classOf: seq<nat>, start: seq<real>, r: nat, n: nat)
    requires n <= |classOf| == |start| && r < |classOf| && classOf[r] == r
    requires forall i :: 0 <= i < |classOf| && classOf[i] == r ==> start[r] <= start[i]
    ensures EarliestStart(classOf, start, r, n).Some? ==> start[r] <= EarliestStart(classOf, start, r, n).value
    ensures r < n ==> EarliestStart(classOf, start, r, n) == Some(start[r])
  {
    if n > 0 {
      EarliestIsRootStart(classOf, start, r, n - 1);
    }
  }

  lemma {:induction false} LatestHitMerge(classOf: seq<nat>, hits: seq<Hit>, item: nat, root: nat, r: nat)
    requires item != root
    ensures LatestHit(Merged(classOf, {item}, root), hits, r) ==
            if r == root then Later(LatestHit(classOf, hits, root), LatestHit(classOf, hits, item))
            else if r == item then None
            else LatestHit(classOf, hits, r)
  {
    if hits != [] {
      LatestHitMerge(classOf, hits[..|hits| - 1], item, root, r);
    }
  }

  lemma {:induction false} LatestHitAdd(classOf: seq<nat>, hits: seq<Hit>, r: nat)
    requires forall h :: h in hits ==> h.member < |classOf|
    ensures LatestHit(classOf + [|classOf|], hits, r) == LatestHit(classOf, hits, r)
  {
    if hits != [] {
      var h := hits[|hits| - 1];
      assert h in hits;
      LatestHitAdd(classOf, hits[..|hits| - 1], r);
    }
  }

  lemma {:induction false} LatestHitNone(classOf: seq<nat>, hits: seq<Hit>, r: nat)
    requires forall h :: h in hits ==> h.member < |classOf| && classOf[h.member] != r
    ensures LatestHit(classOf, hits, r) == None
  {
    if hits != [] {
      assert hits[|hits| - 1] in hits;
      LatestHitNone(classOf, hits[..|hits| - 1], r);
    }
  }

  lemma {:induction false} LatestHitReached(classOf: seq<nat>, hits: seq<Hit>, r: nat)
    requires LatestHit(classOf, hits, r).Some?
    ensures exists h :: h in hits && h.member < |classOf| && classOf[h.member] == r
                        && h.at == LatestHit(classOf, hits, r).value
  {
    var h := hits[|hits| - 1];
    assert h in hits;
    var front := hits[..|hits| - 1];
    if LatestHit(classOf, front, r).Some? {
      LatestHitReached(classOf, front, r);
      var g :| g in front && g.member < |classOf| && classOf[g.member] == r && g.at == LatestHit(classOf, front, r).value;
      assert g in hits;
    }
  }

  ghost predicate HitBy(classOf: seq<nat>, h: Hit, r: nat) {
    h.member < |classOf| && classOf[h.member] == r
  }

  // The time of the last of all hits of the class named r.
  ghost predicate IsLatestHit(classOf: seq<nat>, hits: seq<Hit>, r: nat, t: real) {
    && (exists h :: h in hits && HitBy(classOf, h, r) && h.at == t)
    && (forall h :: h in hits && HitBy(classOf, h, r) ==> h.at <= t)
  }

  lemma {:induction false} LatestHitIsMaximum(classOf: seq<nat>, hits: seq<Hit>, r: nat, t: real)
    ensures LatestHit(classOf, hits, r) == Some(t) <==> IsLatestHit(classOf, hits, r, t)
    ensures LatestHit(classOf, hits, r) == None <==> forall h :: h in hits ==> !HitBy(classOf, h, r)
  {
    if hits != [] {
      var front, last := hits[..|hits| - 1], hits[|hits| - 1];
      assert hits == front + [last];
      LatestHitIsMaximum(classOf, front, r, t);
      var before := LatestHit(classOf, front, r);
      if before.Some? {
        LatestHitIsMaximum(classOf, front, r, before.value);
        var h :| h in front && HitBy(classOf, h, r) && h.at == before.value;
        assert h in hits;
      }
    }
  }

  // The time of the first of all starts of the class named r.
  ghost predicate IsEarliestStart(classOf: seq<nat>, start: seq<real>, r: nat, t: real)
    requires |start| == |classOf|
  {
    && (exists i :: 0 <= i < |classOf| && classOf[i] == r && start[i] == t)
    && (forall i :: 0 <= i < |classOf| && classOf[i] == r ==> t <= start[i])
  }

  lemma {:induction false} EarliestStartIsReached(classOf: seq<nat>, start: seq<real>, r: nat, n: nat)
    requires n <= |classOf| == |start| && EarliestStart(classOf, start, r, n).Some?
    ensures exists i :: 0 <= i < n && classOf[i] == r && start[i] == EarliestStart(classOf, start, r, n).value
  {
    if EarliestStart(classOf, start, r, n) == EarliestStart(classOf, start, r, n - 1) {
      EarliestStartIsReached(classOf, start, r, n - 1);
    } else {
      assert classOf[n - 1] == r;
    }
  }

  lemma EarliestStartIsMinimum(classOf: seq<nat>, start: seq<real>, r: nat, t: real)
    requires |classOf| == |start|
    ensures EarliestStart(classOf, start, r, |classOf|) == Some(t) <==> IsEarliestStart(classOf, start, r, t)
  {
    forall i | 0 <= i < |classOf| && classOf[i] == r
      ensures EarliestStart(classOf, start, r, |classOf|).Some? && EarliestStart(classOf, start, r, |classOf|).value <= start[i]
    {
      EarliestAtMost(classOf, start, r, |classOf|, i);
    }
    if EarliestStart(classOf, start, r, |classOf|).Some? {
      EarliestStartIsReached(classOf, start, r, |classOf|);
    }
  }

  ghost predicate HasHit(classOf: seq<nat>, hits: seq<Hit>, r: nat) {
    exists h :: h in hits && HitBy(classOf, h, r)
  }

  ghost predicate Increasing(names: seq<nat>) {
    forall i, j :: 0 <= i < j < |names| ==> names[i] < names[j]
  }

  // The names of the classes below n that have a hit, in order.
  ghost predicate HitClasses(names: seq<nat>, classOf: seq<nat>, hits: seq<Hit>, n: nat)
    requires n <= |classOf|
  {
    Increasing(names) && forall r: nat :: r in names <==> r < n && classOf[r] == r && HasHit(classOf, hits, r)
  }

  // A lifetime: from the first start of a class to its last hit.
  ghost predicate IsLifetime(classOf: seq<nat>, start: seq<real>, hits: seq<Hit>, r: nat, value: real)
    requires |start| == |classOf|
  {
    exists last, first :: IsLatestHit(classOf, hits, r, last) && IsEarliestStart(classOf, start, r, first) && value == last - first
  }

  // One lifetime for each class that has a hit, in the order of their names.
  ghost predicate AreLifetimes(values: seq<real>, classOf: seq<nat>, start: seq<real>, hits: seq<Hit>, n: nat)
    requires n <= |classOf| == |start|
  {
    exists names :: HitClasses(names, classOf, hits, n) && EachLifetime(names, values, classOf, start, hits)
  }

  ghost predicate EachLifetime(names: seq<nat>, values: seq<real>, classOf: seq<nat>, start: seq<real>, hits: seq<Hit>)
    requires |start| == |classOf|
  {
    |names| == |values| && forall k :: 0 <= k < |values| ==> IsLifetime(classOf, start, hits, names[k], values[k])
  }

  lemma OneMoreLifetime(names: seq<nat>, values: seq<real>, classOf: seq<nat>, start: seq<real>, hits: seq<Hit>, r: nat, value: real)
    requires |start| == |classOf| && EachLifetime(names, values, classOf, start, hits) && IsLifetime(classOf, start, hits, r, value)
    ensures EachLifetime(names + [r], values + [value], classOf, start, hits)
  {
  }

  ghost function HitNames(classOf: seq<nat>, hits: seq<Hit>, n: nat): seq<nat>
    requires n <= |classOf|
  {
    if n == 0 then []
    else
      var before := HitNames(classOf, hits, n - 1);
      if classOf[n - 1] == n - 1 && HasHit(classOf, hits, n - 1) then before + [n - 1] else before
  }

  lemma {:induction false} HitNamesMeaning(classOf: seq<nat>, hits: seq<Hit>, n: nat)
    requires n <= |classOf|
    ensures HitClasses(HitNames(classOf, hits, n), classOf, hits, n)
  {
    if n > 0 {
      HitNamesMeaning(classOf, hits, n - 1);
      HitClassesNext(HitNames(classOf, hits, n - 1), classOf, hits, n - 1, HitNames(classOf, hits, n));
    }
  }

  lemma {:induction false} LifetimesOfNames(classOf: seq<nat>, start: seq<real>, hits: seq<Hit>, n: nat)
    requires n <= |classOf| == |start|
    ensures EachLifetime(HitNames(classOf, hits, n), Lifetimes(classOf, start, hits, n), classOf, start, hits)
  {
    if n > 0 {
      var r := n - 1;
      LifetimesOfNames(classOf, start, hits, r);
      if classOf[r] == r {
        LifetimeOfClass(classOf, start, hits, r);
        if HasHit(classOf, hits, r) {
          var value := LatestHit(classOf, hits, r).value - EarliestStart(classOf, start, r, |classOf|).value;
          OneMoreLifetime(HitNames(classOf, hits, r), Lifetimes(classOf, start, hits, r), classOf, start, hits, r, value);
        }
      }
    }
  }

  // The lifetimes listed are those of the classes with a hit.
  lemma LifetimesMeaning(classOf: seq<nat>, start: seq<real>, hits: seq<Hit>, n: nat)
    requires n <= |classOf| == |start|
    ensures AreLifetimes(Lifetimes(classOf, start, hits, n), classOf, start, hits, n)
  {
    HitNamesMeaning(classOf, hits, n);
    LifetimesOfNames(classOf, start, hits, n);
  }

  lemma HitClassesNext(names: seq<nat>, classOf: seq<nat>, hits: seq<Hit>, r: nat, more: seq<nat>)
    requires r < |classOf| && HitClasses(names, classOf, hits, r)
    requires more == if classOf[r] == r && HasHit(classOf, hits, r) then names + [r] else names
    ensures HitClasses(more, classOf, hits, r + 1)
  {
    forall i | 0 <= i < |names| ensures names[i] < r {
      assert names[i] in names;
    }
    assert forall q: nat :: q in names + [r] <==> q in names || q == r;
  }

  lemma LifetimeOfClass(classOf: seq<nat>, start: seq<real>, hits: seq<Hit>, r: nat)
    requires r < |classOf| == |start| && classOf[r] == r
    ensures var last, first := LatestHit(classOf, hits, r), EarliestStart(classOf, start, r, |classOf|);
            && first.Some? && (last.Some? <==> HasHit(classOf, hits, r))
            && (last.Some? ==> IsLifetime(classOf, start, hits, r, last.value - first.value))
  {
    var last, first := LatestHit(classOf, hits, r), EarliestStart(classOf, start, r, |classOf|);
    EarliestAtMost(classOf, start, r, |classOf|, r);
    EarliestStartIsMinimum(classOf, start, r, first.value);
    LatestHitIsMaximum(classOf, hits, r, if last.Some? then last.value else 0.0);
  }

  // Hits never precede the start of the class that makes them.
  ghost predicate Timely(classOf: seq<nat>, start: seq<real>, hits: seq<Hit>) {
    && |classOf| == |start|
    && forall h :: h in hits ==>
         h.member < |classOf| && classOf[h.member] < |classOf| && start[classOf[h.member]] <= h.at
  }

  // The lifetimes of timely groups are never negative.
  lemma {:induction false} LifetimesNonNegative(classOf: seq<nat>, start: seq<real>, hits: seq<Hit>, n: nat)
    requires n <= |classOf| == |start| && Timely(classOf, start, hits)
    ensures forall v :: v in Lifetimes(classOf, start, hits, n) ==> v >= 0.0
  {
    if n > 0 {
      LifetimesNonNegative(classOf, start, hits, n - 1);
      var r := n - 1;
      var last := LatestHit(classOf, hits, r);
      var first := EarliestStart(classOf, start, r, |classOf|);
      if classOf[r] == r && last.Some? && first.Some? {
        LatestHitReached(classOf, hits, r);
        EarliestAtMost(classOf, start, r, |classOf|, r);
      }
    }
  }

  lemma {:induction false} EarliestAtMost(classOf: seq<nat>, start: seq<real>, r: nat, n: nat, i: nat)
    requires i < n <= |classOf| == |start| && classOf[i] == r
    ensures EarliestStart(classOf, start, r, n).Some? && EarliestStart(classOf, start, r, n).value <= start[i]
  {
    if i < n - 1 {
      EarliestAtMost(classOf, start, r, n - 1, i);
    }
  }

  // --------------------------------------------------------------- the forest

  // Node i of the forest: its parent is in its class, roots are their own class
  // names, and parents are strictly higher, so following parents ends at the root.
  ghost predicate Node(parent: seq<nat>, classOf: seq<nat>, height: seq<nat>, i: nat)
    requires i < |parent| == |classOf| == |height|
  {
    && parent[i] < |parent| && classOf[i] < |parent|
    && classOf[parent[i]] == classOf[i] && classOf[classOf[i]] == classOf[i]
    && (parent[i] == i <==> classOf[i] == i)
    && (parent[i] != i ==> height[i] < height[parent[i]])
  }

  ghost predicate Forest(parent: seq<nat>, classOf: seq<nat>, height: seq<nat>) {
    && |parent| == |classOf| == |height|
    && forall i :: 0 <= i < |parent| ==> Node(parent, classOf, height, i)
  }

  lemma ForestAdd(parent: seq<nat>, classOf: seq<nat>, height: seq<nat>)
    requires Forest(parent, classOf, height)
    ensures Forest(parent + [|parent|], classOf + [|parent|], height + [0])
  {
    var n := |parent|;
    forall i | 0 <= i < n + 1 ensures Node(parent + [n], classOf + [n], height + [0], i) {
      if i < n { assert Node(parent, classOf, height, i); }
    }
  }

  lemma ForestCompress(parent: seq<nat>, classOf: seq<nat>, height: seq<nat>, index: nat)
    requires Forest(parent, classOf, height)
    requires index < |parent| && classOf[index] != index
    requires classOf[index] < |height| && height[index] < height[classOf[index]]
    ensures Forest(parent[index := classOf[index]], classOf, height)
  {
    var parent' := parent[index := classOf[index]];
    forall i | 0 <= i < |parent| ensures Node(parent', classOf, height, i) {
      assert Node(parent, classOf, height, i);
    }
  }

  lemma ForestAttach(parent: seq<nat>, classOf: seq<nat>, height: seq<nat>, item: nat, root: nat, h: nat)
    requires Forest(parent, classOf, height)
    requires item < |parent| && root < |parent| && item != root
    requires classOf[item] == item && classOf[root] == root
    requires h >= height[root] && h > height[item]
    ensures Forest(parent[item := root], Merged(classOf, {item}, root), height[root := h])
  {
    var parent', classOf', height' := parent[item := root], Merged(classOf, {item}, root), height[root := h];
    forall i | 0 <= i < |parent| ensures Node(parent', classOf', height', i) {
      assert Node(parent, classOf, height, i);
      assert Node(parent, classOf, height, root);
    }
  }

  lemma {:induction false} HeightToRoot(parent: seq<nat>, classOf: seq<nat>, height: seq<nat>, top: nat, i: nat)
    requires Forest(parent, classOf, height)
    requires forall j :: 0 <= j < |height| ==> height[j] <= top
    requires i < |parent| && classOf[i] != i
    ensures classOf[i] < |parent| && height[i] < height[classOf[i]]
    decreases top - height[i]
  {
    assert Node(parent, classOf, height, i);
    if parent[i] != classOf[i] {
      assert Node(parent, classOf, height, parent[i]);
      HeightToRoot(parent, classOf, height, top, parent[i]);
    }
  }

  // Each root carries the earliest start and the latest hit of its class.
  ghost predicate Times(classOf: seq<nat>, start: seq<real>, lastHit: seq<Option<real>>, hits: seq<Hit>) {
    && |start| == |lastHit| == |classOf|
    && (forall i {:trigger classOf[i]} :: 0 <= i < |classOf| ==> classOf[i] < |classOf| && start[classOf[i]] <= start[i])
    && (forall h :: h in hits ==> h.member < |classOf|)
    && (forall i :: 0 <= i < |classOf| && classOf[i] == i ==> lastHit[i] == LatestHit(classOf, hits, i))
  }

  lemma TimesAdd(classOf: seq<nat>, start: seq<real>, lastHit: seq<Option<real>>, hits: seq<Hit>, timestamp: real)
    requires Times(classOf, start, lastHit, hits)
    ensures Times(classOf + [|classOf|], start + [timestamp], lastHit + [None], hits)
  {
    var n := |classOf|;
    forall i | 0 <= i < n + 1 && (classOf + [n])[i] == i
      ensures (lastHit + [None])[i] == LatestHit(classOf + [n], hits, i)
    {
      LatestHitAdd(classOf, hits, i);
      if i == n { LatestHitNone(classOf, hits, n); }
    }
  }

  lemma TimesAttach(classOf: seq<nat>, start: seq<real>, lastHit: seq<Option<real>>, hits: seq<Hit>, item: nat, root: nat)
    requires Times(classOf, start, lastHit, hits)
    requires item < |classOf| && root < |classOf| && item != root
    requires classOf[item] == item && classOf[root] == root
    requires start[root] <= start[item]
    ensures Times(Merged(classOf, {item}, root), start, lastHit[root := Later(lastHit[root], lastHit[item])], hits)
  {
    forall i | 0 <= i < |classOf| && Merged(classOf, {item}, root)[i] == i
      ensures lastHit[root := Later(lastHit[root], lastHit[item])][i] == LatestHit(Merged(classOf, {item}, root), hits, i)
    {
      LatestHitMerge(classOf, hits, item, root, i);
    }
  }

  lemma TimesHit(classOf: seq<nat>, start: seq<real>, lastHit: seq<Option<real>>, hits: seq<Hit>, hit: Hit)
    requires Times(classOf, start, lastHit, hits)
    requires hit.member < |classOf| && classOf[classOf[hit.member]] == classOf[hit.member]
    ensures var r := classOf[hit.member];
            Times(classOf, start, lastHit[r := Later(lastHit[r], Some(hit.at))], hits + [hit])
  {
    assert (hits + [hit])[..|hits|] == hits;
  }

  // What the root of a class adds to the lifetimes.
  lemma LifetimeAt(classOf: seq<nat>, start: seq<real>, lastHit: seq<Option<real>>, hits: seq<Hit>, i: nat)
    requires Times(classOf, start, lastHit, hits) && i < |classOf|
    ensures Lifetimes(classOf, start, hits, i + 1) ==
            Lifetimes(classOf, start, hits, i) +
            if classOf[i] == i && lastHit[i].Some? then [lastHit[i].value - start[i]] else []
  {
    if classOf[i] == i {
      EarliestIsRootStart(classOf, start, i, |classOf|);
    }
  }

  // ---------------------------------------------------------------- the class

  class RequestGroups {
    var parent: seq<nat>
    var firstTimestamp: seq<real>
    var lastHitTimestamp: seq<Option<real>>

    ghost var classOf: seq<nat>      // the root of each member
    ghost var hits: seq<Hit>         // every hit recorded so far
    ghost var unions: seq<seq<nat>>  // every union made so far
    ghost var height: seq<nat>
    ghost var top: nat

    ghost predicate Linked()
      reads this
    {
      && Forest(parent, classOf, height)
      && (forall i :: 0 <= i < |height| ==> height[i] <= top)
    }

    ghost predicate Timed()
      reads this
    {
      Times(classOf, firstTimestamp, lastHitTimestamp, hits)
    }

    ghost predicate Valid()
      reads this
    {
      Linked() && Timed() && Partition(classOf, unions)
    }

    constructor ()
      ensures Valid()
      ensures classOf == [] && firstTimestamp == [] && hits == [] && unions == []
    {
      parent, firstTimestamp, lastHitTimestamp := [], [], [];
      classOf, hits, unions, height, top := [], [], [], [], 0;
    }

    method Add(timestamp: real) returns (index: nat)
      requires Valid()
      modifies this
      ensures Valid()
      ensures index == old(|classOf|) && classOf == old(classOf) + [index]
      ensures firstTimestamp == old(firstTimestamp) + [timestamp]
      ensures hits == old(hits) && unions == old(unions)
    {
      index := |parent|;
      ForestAdd(parent, classOf, height);
      TimesAdd(classOf, firstTimestamp, lastHitTimestamp, hits, timestamp);
      PartitionAdd(classOf, unions);
      parent := parent + [index];
      firstTimestamp := firstTimestamp + [timestamp];
      lastHitTimestamp := lastHitTimestamp + [None];
      classOf := classOf + [index];
      height := height + [0];
    }

    // Follows the parents to the root and points every node on the way at it.
    method Find(index: nat) returns (root: nat)
      requires Linked() && index < |parent|
      modifies this`parent
      ensures Linked() && root == classOf[index]
      ensures parent[index] == root
      decreases top - height[index]
    {
      assert Node(parent, classOf, height, index);
      var p := parent[index];
      if p != index {
        var r := Find(p);
        assert classOf[index] == r;
        HeightToRoot(parent, classOf, height, top, index);
        ForestCompress(parent, classOf, height, index);
        parent := parent[index := r];
      }
      root := parent[index];
    }

    // Carries the latest hit of one root over to another.
    method TakeOverLastHit(item: nat, root: nat)
      requires item < |lastHitTimestamp| && root < |lastHitTimestamp|
      modifies this`lastHitTimestamp
      ensures lastHitTimestamp == old(lastHitTimestamp[root := Later(lastHitTimestamp[root], lastHitTimestamp[item])])
    {
      var itemLastHit, rootLastHit := lastHitTimestamp[item], lastHitTimestamp[root];
      if itemLastHit.Some? {
        lastHitTimestamp := lastHitTimestamp[root :=
          if rootLastHit.None? then itemLastHit
          else Some(if rootLastHit.value >= itemLastHit.value then rootLastHit.value else itemLastHit.value)];
      }
    }

    // Hangs root `item` under root `root`, which started no later.
    method Attach(item: nat, root: nat)
      requires Linked() && Timed()
      requires item < |parent| && root < |parent| && item != root
      requires classOf[item] == item && classOf[root] == root
      requires firstTimestamp[root] <= firstTimestamp[item]
      modifies this`parent, this`lastHitTimestamp, this`classOf, this`height, this`top
      ensures Linked() && Timed()
      ensures classOf == Merged(old(classOf), {item}, root)
    {
      ghost var h := if height[root] <= height[item] then height[item] + 1 else height[root];
      ForestAttach(parent, classOf, height, item, root, h);
      TimesAttach(classOf, firstTimestamp, lastHitTimestamp, hits, item, root);
      parent := parent[item := root];
      TakeOverLastHit(item, root);
      classOf := Merged(classOf, {item}, root);
      height := height[root := h];
      top := if top < h then h else top;
    }

    ghost predicate InRange(roots: seq<nat>)
      reads this
    {
      forall j :: 0 <= j < |roots| ==> roots[j] < |classOf|
    }

    ghost function ClassesOf(roots: seq<nat>): set<nat>
      requires InRange(roots)
      reads this
    {
      set j | 0 <= j < |roots| :: classOf[roots[j]]
    }

    // The distinct roots of the given members.
    method FindAll(roots: seq<nat>) returns (rootSet: set<nat>)
      requires Linked() && InRange(roots)
      modifies this`parent
      ensures Linked()
      ensures rootSet == ClassesOf(roots)
      ensures forall r :: r in rootSet ==> r < |classOf| && classOf[r] == r
    {
      rootSet := {};
      for k := 0 to |roots|
        invariant Linked()
        invariant rootSet == set j | 0 <= j < k :: classOf[roots[j]]
        invariant forall r :: r in rootSet ==> r < |classOf| && classOf[r] == r
      {
        assert Node(parent, classOf, height, roots[k]);
        var root := Find(roots[k]);
        rootSet := rootSet + {root};
      }
    }

    // Hangs every other root of the group under `root`.
    method AttachAll(group: set<nat>, root: nat)
      requires Linked() && Timed()
      requires root in group && |firstTimestamp| == |classOf|
      requires forall r :: r in group ==> r < |classOf| && classOf[r] == r
      requires forall r :: r in group ==> firstTimestamp[root] <= firstTimestamp[r]
      modifies this`parent, this`lastHitTimestamp, this`classOf, this`height, this`top
      ensures Linked() && Timed()
      ensures classOf == Merged(old(classOf), group, root)
    {
      var rest := group;
      ghost var done := {root};
      while rest != {}
        invariant Linked() && Timed()
        invariant rest <= group && done == group - rest + {root}
        invariant classOf == Merged(old(classOf), done, root)
        decreases rest
      {
        var item :| item in rest;
        rest := rest - {item};
        if item != root {
          Attach(item, root);
        }
        done := done + {item};
      }
      assert done == group;
    }

    // Merges the classes of the given roots; `members` are the requests on whose
    // account this happens, one or more from each of the same classes.
    method UnionRoots(roots: seq<nat>, ghost members: seq<nat>) returns (result: Result<nat>)
      requires Valid() && InRange(roots) && InRange(members)
      requires ClassesOf(roots) == ClassesOf(members)
      modifies this
      ensures Valid()
      ensures firstTimestamp == old(firstTimestamp) && hits == old(hits)
      ensures roots == [] ==> result.Err? && classOf == old(classOf) && unions == old(unions)
      ensures roots != [] ==>
                var group := old(ClassesOf(roots));
                && result.Ok? && result.value in group && result.value < |classOf|
                && (forall r :: r in group ==> r < |classOf| && firstTimestamp[result.value] <= firstTimestamp[r])
                && classOf == Merged(old(classOf), group, result.value)
                && classOf[result.value] == result.value
                && unions == old(unions) + [members]
    {
      var rootSet := FindAll(roots);
      assert roots != [] ==> classOf[roots[0]] in rootSet;
      if rootSet == {} {
        return Err("cannot union empty request group");
      }
      var root := MergeRoots(rootSet, members);
      return Ok(root);
    }

    // Merges classes, given by their roots, under the root that started first.
    method MergeRoots(group: set<nat>, ghost members: seq<nat>) returns (root: nat)
      requires Valid() && group != {} && InRange(members) && group == ClassesOf(members)
      requires forall r :: r in group ==> r < |classOf| && classOf[r] == r
      modifies this`parent, this`lastHitTimestamp, this`classOf, this`height, this`top, this`unions
      ensures Valid() && root in group && root < |classOf| && classOf[root] == root
      ensures forall r :: r in group ==> r < |classOf| && firstTimestamp[root] <= firstTimestamp[r]
      ensures classOf == Merged(old(classOf), group, root) && unions == old(unions) + [members]
    {
      root := MinByFirstTimestamp(group);
      PartitionMerge(classOf, unions, members, group, root);
      AttachAll(group, root);
      unions := unions + [members];
    }

    method MinByFirstTimestamp(candidates: set<nat>) returns (best: nat)
      requires candidates != {} && forall c :: c in candidates ==> c < |firstTimestamp|
      ensures best in candidates
      ensures forall c :: c in candidates ==> firstTimestamp[best] <= firstTimestamp[c]
    {
      best :| best in candidates;
      var rest := candidates - {best};
      while rest != {}
        invariant rest <= candidates && best in candidates
        invariant forall c :: c in candidates - rest ==> firstTimestamp[best] <= firstTimestamp[c]
        decreases rest
      {
        var c :| c in rest;
        rest := rest - {c};
        if firstTimestamp[c] < firstTimestamp[best] {
          best := c;
        }
      }
    }

    // Records a hit by `member`, a request of the class of `root`.
    method RecordHit(root: nat, timestamp: real, ghost member: nat)
      requires Valid() && root < |classOf| && member < |classOf| && classOf[member] == classOf[root]
      modifies this
      ensures Valid()
      ensures classOf == old(classOf) && firstTimestamp == old(firstTimestamp) && unions == old(unions)
      ensures hits == old(hits) + [Hit(member, timestamp)]
    {
      assert Node(parent, classOf, height, root);
      TimesHit(classOf, firstTimestamp, lastHitTimestamp, hits, Hit(member, timestamp));
      var r := Find(root);
      var lastHit := lastHitTimestamp[r];
      lastHitTimestamp := lastHitTimestamp[r :=
        if lastHit.None? then Some(timestamp)
        else Some(if lastHit.value >= timestamp then lastHit.value else timestamp)];
      hits := hits + [Hit(member, timestamp)];
    }

    method LifetimeList() returns (values: seq<real>)
      requires Valid()
      modifies this`parent
      ensures Valid()
      ensures values == Lifetimes(classOf, firstTimestamp, hits, |classOf|)
      ensures AreLifetimes(values, classOf, firstTimestamp, hits, |classOf|)
    {
      values := [];
      ghost var c, s, l, h := classOf, firstTimestamp, lastHitTimestamp, hits;
      assert Times(c, s, l, h);
      for index := 0 to |lastHitTimestamp|
        invariant Linked()
        invariant values == Lifetimes(c, s, h, index)
      {
        LifetimeAt(c, s, l, h, index);
        var lastHit := lastHitTimestamp[index];
        var root := Find(index);
        if root != index || lastHit.None? {
          continue;
        }
        values := values + [lastHit.value - firstTimestamp[index]];
      }
      LifetimesMeaning(c, s, h, |c|);
    }
  }
}
