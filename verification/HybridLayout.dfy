/**
 The physical layout of pages shared by attention and linear attention: one raw tensor
 per row, cut into components that each run over all blocks.
 */
module HybridLayout {
  import opened Wrappers
  import opened Arithmetic
  import opened VectoredCopy

  // One row: where each component starts, its bytes over all blocks, and in one block.
  datatype Row = Row(basePtrs: seq<nat>, bufferSizes: seq<nat>, sizes: seq<nat>)

  // What the builder sees of a raw tensor: its bytes, and the views found on it.
  datatype RawTensor = RawTensor(size: nat, sharedPtrs: seq<nat>, mambaSizes: seq<nat>, attention: Option<(nat, nat)>, hasMamba: bool)

  // The address of a component of a block.
  function Address(row: Row, block: nat, i: nat): nat
    requires i < |row.sizes| == |row.basePtrs|
  {
    block * row.sizes[i] + row.basePtrs[i]
  }

  // The components follow each other from `base` on, each over all n blocks.
  ghost predicate Stacked(row: Row, base: nat, n: nat) {
    && |row.sizes| == |row.basePtrs| == |row.bufferSizes|
    && forall i :: 0 <= i < |row.sizes| ==>
         row.basePtrs[i] == base + n * Total(row.sizes, i) && row.bufferSizes[i] == row.sizes[i] * n
  }

  // ------------------------------------------------------------------- addressing

  datatype Place = Place(component: nat, block: nat, byte: nat)

  ghost predicate InRow(sizes: seq<nat>, n: nat, p: Place) {
    p.component < |sizes| && p.block < n && p.byte < sizes[p.component]
  }

  // The distance of a byte from the start of its row.
  function Distance(sizes: seq<nat>, n: nat, p: Place): nat
    requires p.component < |sizes|
  {
    n * Total(sizes, p.component) + p.block * sizes[p.component] + p.byte
  }

  // The component, block and byte at a distance from the start of a row.
  function Locate(sizes: seq<nat>, n: nat, x: nat, upTo: nat): Place
    requires upTo <= |sizes| && x < n * Total(sizes, upTo)
  {
    var start := n * Total(sizes, upTo - 1);
    if x < start then Locate(sizes, n, x, upTo - 1)
    else
      InComponent(sizes, n, x, upTo);
      Place(upTo - 1, (x - start) / sizes[upTo - 1], (x - start) % sizes[upTo - 1])
  }

  lemma InComponent(sizes: seq<nat>, n: nat, x: nat, upTo: nat)
    requires 0 < upTo <= |sizes| && n * Total(sizes, upTo - 1) <= x < n * Total(sizes, upTo)
    ensures 0 < sizes[upTo - 1] && x - n * Total(sizes, upTo - 1) < n * sizes[upTo - 1]
  {
    assert n * Total(sizes, upTo) == n * Total(sizes, upTo - 1) + n * sizes[upTo - 1];
  }

  // Locating a byte and computing its address are inverse: the places of a row are
  // exactly the bytes of all its pages.
  lemma {:induction false} LocatedHere(sizes: seq<nat>, n: nat, x: nat, upTo: nat)
    requires upTo <= |sizes| && x < n * Total(sizes, upTo)
    ensures InRow(sizes, n, Locate(sizes, n, x, upTo)) && Locate(sizes, n, x, upTo).component < upTo
    ensures Distance(sizes, n, Locate(sizes, n, x, upTo)) == x
  {
    var start := n * Total(sizes, upTo - 1);
    if x < start {
      LocatedHere(sizes, n, x, upTo - 1);
    } else {
      InComponent(sizes, n, x, upTo);
      var size, y := sizes[upTo - 1], x - start;
      DivBounds(y, size);
      QuotientBelow(y, n, size);
    }
  }

  lemma QuotientBelow(y: nat, n: nat, size: nat)
    requires 0 < size && y < n * size
    ensures y / size < n
  {
    DivBounds(y, size);
    if n <= y / size {
      MulMonotone(n, y / size, size);
    }
  }

  lemma ByteBelow(n: nat, before: nat, block: nat, size: nat, byte: nat, after: nat)
    requires block < n && byte < size && before + size <= after
    ensures n * before <= n * before + block * size + byte < n * after
  {
    MulMonotone(block + 1, n, size);
    MulMonotone(before + size, after, n);
    Distribute(before, size, n);
    Distribute(block, 1, size);
    MulMonotone(0, block, size);
  }

  lemma PlacesBelow(sizes: seq<nat>, n: nat, p: Place, upTo: nat)
    requires InRow(sizes, n, p) && p.component < upTo <= |sizes|
    ensures n * Total(sizes, p.component) <= Distance(sizes, n, p) < n * Total(sizes, upTo)
  {
    TotalMonotone(sizes, p.component + 1, upTo);
    ByteBelow(n, Total(sizes, p.component), p.block, sizes[p.component], p.byte, Total(sizes, upTo));
  }

  lemma {:induction false} DistanceLocates(sizes: seq<nat>, n: nat, p: Place, upTo: nat)
    requires InRow(sizes, n, p) && p.component < upTo <= |sizes|
    ensures Distance(sizes, n, p) < n * Total(sizes, upTo) && Locate(sizes, n, Distance(sizes, n, p), upTo) == p
  {
    PlacesBelow(sizes, n, p, upTo);
    if p.component < upTo - 1 {
      PlacesBelow(sizes, n, p, upTo - 1);
      DistanceLocates(sizes, n, p, upTo - 1);
    } else {
      var size, y := sizes[p.component], p.block * sizes[p.component] + p.byte;
      DivUnique(y, p.block, size);
      DivBounds(y, size);
    }
  }

  ghost predicate InBlock(row: Row, block: nat, i: nat, a: nat)
    requires i < |row.sizes| == |row.basePtrs|
  {
    Address(row, block, i) <= a < Address(row, block, i) + row.sizes[i]
  }

  // No byte belongs to two blocks or to two components.
  lemma RangesAreDisjoint(row: Row, base: nat, n: nat, b: nat, i: nat, c: nat, j: nat, a: nat)
    requires Stacked(row, base, n) && b < n && c < n && i < |row.sizes| && j < |row.sizes|
    requires InBlock(row, b, i, a) && InBlock(row, c, j, a)
    ensures b == c && i == j
  {
    var p, q := Place(i, b, a - Address(row, b, i)), Place(j, c, a - Address(row, c, j));
    assert Distance(row.sizes, n, p) == a - base == Distance(row.sizes, n, q);
    DistanceLocates(row.sizes, n, p, |row.sizes|);
    DistanceLocates(row.sizes, n, q, |row.sizes|);
  }

  ghost predicate Covered(row: Row, n: nat, a: nat)
    requires |row.sizes| == |row.basePtrs|
  {
    exists b, i :: 0 <= b < n && 0 <= i < |row.sizes| && InBlock(row, b, i, a)
  }

  // A byte belongs to some block exactly when it lies in one of the row's pages.
  lemma RangesCoverPages(row: Row, base: nat, n: nat, a: nat)
    requires Stacked(row, base, n)
    ensures Covered(row, n, a) <==> base <= a < base + n * Total(row.sizes, |row.sizes|)
  {
    forall b, i | 0 <= b < n && 0 <= i < |row.sizes| && InBlock(row, b, i, a)
      ensures base <= a < base + n * Total(row.sizes, |row.sizes|)
    {
      PlacesBelow(row.sizes, n, Place(i, b, a - Address(row, b, i)), |row.sizes|);
    }
    if base <= a < base + n * Total(row.sizes, |row.sizes|) {
      LocatedIsCovered(row, base, n, a);
    }
  }

  lemma LocatedIsCovered(row: Row, base: nat, n: nat, a: nat)
    requires Stacked(row, base, n) && base <= a < base + n * Total(row.sizes, |row.sizes|)
    ensures Covered(row, n, a)
  {
    LocatedHere(row.sizes, n, a - base, |row.sizes|);
    var p := Locate(row.sizes, n, a - base, |row.sizes|);
    assert Address(row, p.block, p.component) + p.byte == base + Distance(row.sizes, n, p);
    assert InBlock(row, p.block, p.component, a);
  }

  // The blocks of a row lie inside its raw tensor, and fill it exactly when its size is
  // a multiple of the block count.
  lemma RowTilesTensor(row: Row, base: nat, n: nat, size: nat)
    requires 0 < n && Stacked(row, base, n)
    requires Total(row.sizes, |row.sizes|) == size / n
    ensures forall a: nat :: Covered(row, n, a) ==> base <= a < base + size
    ensures (forall a: nat :: base <= a < base + size ==> Covered(row, n, a)) <==> size % n == 0
  {
    var page, rest := size / n, size % n;
    DivBounds(size, n);
    assert page * n + rest == size;
    RestIsBare(row, base, n, page * n, rest);
  }

  lemma RestIsBare(row: Row, base: nat, n: nat, pages: nat, rest: nat)
    requires Stacked(row, base, n) && n * Total(row.sizes, |row.sizes|) == pages
    ensures forall a: nat :: Covered(row, n, a) ==> base <= a < base + pages + rest
    ensures (forall a: nat :: base <= a < base + pages + rest ==> Covered(row, n, a)) <==> rest == 0
  {
    forall a: nat ensures Covered(row, n, a) <==> base <= a < base + pages {
      RangesCoverPages(row, base, n, a);
    }
    if rest != 0 {
      assert !Covered(row, n, base + pages);
    }
  }

  // --------------------------------------------------------------------- builders

  function MinPtr(ptrs: seq<nat>): (m: nat)
    requires ptrs != []
    ensures m in ptrs && forall p :: p in ptrs ==> m <= p
  {
    if |ptrs| == 1 then ptrs[0]
    else
      var rest := MinPtr(ptrs[1..]);
      assert forall p :: p in ptrs ==> p == ptrs[0] || p in ptrs[1..];
      if ptrs[0] <= rest then ptrs[0] else rest
  }

  // A raw tensor that cannot be cut into whole pages is refused.
  method ContiguousPages(size: nat, ptrs: seq<nat>, n: nat) returns (r: Result<Row>)
    requires 0 < n && ptrs != []
    ensures r.Ok? <==> size % n == 0
    ensures r.Ok? ==> Stacked(r.value, MinPtr(ptrs), n) && r.value.sizes == [size / n]
  {
    if size % n != 0 {
      return Err("invalid raw tensor size");
    }
    var page := size / n;
    DivBounds(size, n);
    r := Ok(Row([MinPtr(ptrs)], [size], [page]));
    assert Total([page], 0) == 0;
  }

  method ThreeComponents(base: nat, n: nat, head: nat, middle: nat, tail: nat) returns (row: Row)
    ensures Stacked(row, base, n) && row.sizes == [head, middle, tail]
  {
    row := Row([base, base + head * n, base + (head + middle) * n], [head * n, middle * n, tail * n], [head, middle, tail]);
    TotalOfThree(head, middle, tail);
    Commute(n, head);
    Commute(n, head + middle);
  }

  lemma TotalOfThree(head: nat, middle: nat, tail: nat)
    ensures var sizes := [head, middle, tail];
            Total(sizes, 0) == 0 && Total(sizes, 1) == head && Total(sizes, 2) == head + middle && Total(sizes, 3) == head + middle + tail
  {
  }

  lemma Commute(a: int, b: int)
    ensures a * b == b * a
  {
  }

  // The tensors for which a component layout is accepted: with fewer than two state
  // components whole pages, otherwise a tail after conv and middle that holds V.
  predicate ComponentsFit(size: nat, n: nat, mambaSizes: seq<nat>, k: nat, v: nat)
    requires 0 < n
  {
    if |mambaSizes| < 2 then size % n == 0
    else
      var taken := mambaSizes[0] + if k >= mambaSizes[1] then k else mambaSizes[1];
      size / n > taken && size / n - taken >= v
  }

  // [conv, K or state, tail], each over all blocks.
  method ComponentMajor(size: nat, ptrs: seq<nat>, n: nat, mambaSizes: seq<nat>, k: nat, v: nat) returns (r: Result<Row>)
    requires 0 < n && ptrs != []
    ensures r.Ok? <==> ComponentsFit(size, n, mambaSizes, k, v)
    ensures r.Ok? ==> Stacked(r.value, MinPtr(ptrs), n) && Total(r.value.sizes, |r.value.sizes|) == size / n
    ensures r.Ok? && |mambaSizes| >= 2 ==>
              && |r.value.sizes| == 3 && r.value.sizes[0] == mambaSizes[0]
              && k <= r.value.sizes[1] && mambaSizes[1] <= r.value.sizes[1] && v <= r.value.sizes[2]
  {
    if |mambaSizes| < 2 {
      r := ContiguousPages(size, ptrs, n);
      assert r.Ok? ==> Total(r.value.sizes, 1) == Total(r.value.sizes, 0) + size / n;
      return;
    }
    var conv, middle := mambaSizes[0], if k >= mambaSizes[1] then k else mambaSizes[1];
    var page := size / n;
    if page <= conv + middle {
      return Err("invalid page layout");
    }
    var tail := page - conv - middle;
    if tail < v {
      return Err("tail cannot hold V");
    }
    var row := ThreeComponents(MinPtr(ptrs), n, conv, middle, tail);
    TotalOfThree(conv, middle, tail);
    r := Ok(row);
  }

  // [padding, K, V]; the first view found starts after the padding. A page without room
  // for padding is kept whole.
  method AttentionOnly(size: nat, ptrs: seq<nat>, n: nat, k: nat, v: nat) returns (r: Result<Row>, base: int)
    requires 0 < n && ptrs != []
    ensures size / n <= k + v ==> base == MinPtr(ptrs) && (r.Ok? <==> size % n == 0)
    ensures size / n > k + v ==> base == MinPtr(ptrs) - (size / n - k - v) * n && (r.Ok? <==> base >= 0)
    ensures r.Ok? ==> base >= 0 && Stacked(r.value, base, n) && Total(r.value.sizes, |r.value.sizes|) == size / n
    ensures r.Ok? && size / n > k + v ==> r.value.sizes == [size / n - k - v, k, v] && r.value.basePtrs[1] == MinPtr(ptrs)
  {
    var page := size / n;
    if page <= k + v {
      r := ContiguousPages(size, ptrs, n);
      base := MinPtr(ptrs);
      assert r.Ok? ==> Total(r.value.sizes, 1) == Total(r.value.sizes, 0) + size / n;
      return;
    }
    var padding := page - k - v;
    base := MinPtr(ptrs) - padding * n;
    if base < 0 {
      r := Err("negative address");
      return;
    }
    var row := ThreeComponents(base, n, padding, k, v);
    TotalOfThree(padding, k, v);
    r := Ok(row);
  }

  // A raw tensor starts at its first view, except for attention alone with room for
  // padding, where the first view starts after the padding of all blocks.
  ghost predicate StartsAt(t: RawTensor, n: nat, isNpu: bool, start: nat)
    requires 0 < n && t.sharedPtrs != []
  {
    if isNpu && !t.hasMamba && t.attention.Some? && t.size / n > t.attention.value.0 + t.attention.value.1
    then MinPtr(t.sharedPtrs) == start + (t.size / n - t.attention.value.0 - t.attention.value.1) * n
    else MinPtr(t.sharedPtrs) == start
  }

  // Chooses the layout of a raw tensor; whatever it chooses, the row is a stack of
  // components that add up to one page, and it stands where the tensor starts.
  method BuildRow(t: RawTensor, n: nat, isNpu: bool) returns (r: Result<Row>, base: int)
    requires 0 < n && t.sharedPtrs != []
    ensures r.Ok? ==> base >= 0 && Stacked(r.value, base, n) && Total(r.value.sizes, |r.value.sizes|) == t.size / n
    ensures forall start: nat :: StartsAt(t, n, isNpu, start) ==> base == start
    ensures !isNpu || t.attention.None? ==> (r.Ok? <==> t.size % n == 0)
  {
    base := MinPtr(t.sharedPtrs);
    if isNpu && t.hasMamba && t.attention.Some? {
      r := ComponentMajor(t.size, t.sharedPtrs, n, t.mambaSizes, t.attention.value.0, t.attention.value.1);
    } else if isNpu && t.attention.Some? {
      r, base := AttentionOnly(t.size, t.sharedPtrs, n, t.attention.value.0, t.attention.value.1);
    } else {
      r := ContiguousPages(t.size, t.sharedPtrs, n);
      assert r.Ok? ==> Total(r.value.sizes, 1) == Total(r.value.sizes, 0) + t.size / n;
    }
  }

  // A component layout accepts a size that is no multiple of the block count: of seven
  // bytes in two blocks, the last one then belongs to no block.
  lemma OddSizeLeavesAByte(row: Row, base: nat)
    requires Stacked(row, base, 2) && Total(row.sizes, |row.sizes|) == 7 / 2
    ensures ComponentsFit(7, 2, [1, 1], 1, 1) && !Covered(row, 2, base + 6)
  {
    RangesCoverPages(row, base, 2, base + 6);
  }
}
