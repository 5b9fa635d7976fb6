/**
 Addresses of canonical hash blocks inside the physical blocks of a cache group, where
 one physical block may pack several of them in compressed form.
 */
module FawaLayout {
  import opened Arithmetic
  import opened VectoredCopy
  import opened Wrappers
  import FawaPlan

  // One tensor view of a group. Its blocks hold `blockTokens` rows of `tokenBytes`.
  datatype View = View(base: nat, blockStride: nat, tokenStride: nat, tokenBytes: nat, blockTokens: nat) {
    ghost predicate Valid() {
      tokenBytes <= tokenStride && blockTokens * tokenStride <= blockStride
    }
  }

  // Physical rows before a token offset, for a group block of `span` logical tokens.
  function RowsBefore(v: View, span: nat, offset: nat): nat
    requires 0 < span
  {
    BlocksIn(offset * v.blockTokens, span)
  }

  // Where a token offset of a block starts.
  function OffsetAddr(v: View, span: nat, block: nat, offset: nat): nat
    requires 0 < span
  {
    block * v.blockStride + RowsBefore(v, span, offset) * v.tokenStride + v.base
  }

  // The physical rows of a segment of some logical tokens.
  function SegmentRows(v: View, span: nat, tokens: nat): nat
    requires 0 < span
  {
    BlocksIn(v.blockTokens * tokens, span)
  }

  // The bytes of a segment of some logical tokens.
  function SegmentBytes(v: View, span: nat, tokens: nat): nat
    requires 0 < span
  {
    v.tokenBytes * SegmentRows(v, span, tokens)
  }

  // Where hash block i of h tokens starts, given the physical block that contains it.
  function HashBlockAddr(v: View, span: nat, h: nat, block: nat, i: nat): nat
    requires 0 < span
  {
    if h == span then block * v.blockStride + v.base else OffsetAddr(v, span, block, i * h % span)
  }

  // Both are quotients rounded down.
  lemma RowsAreQuotients(v: View, span: nat, n: nat)
    requires 0 < span
    ensures RowsBefore(v, span, n) == n * v.blockTokens / span && SegmentRows(v, span, n) == v.blockTokens * n / span
  {
    BlocksInIsQuotient(n * v.blockTokens, span);
    BlocksInIsQuotient(v.blockTokens * n, span);
  }

  // Rounding down never makes two consecutive segments overlap.
  lemma RowsAdd(v: View, span: nat, a: nat, n: nat)
    requires 0 < span
    ensures RowsBefore(v, span, a) + SegmentRows(v, span, n) <= RowsBefore(v, span, a + n)
    ensures v.blockTokens * n % span == 0 ==> RowsBefore(v, span, a) + SegmentRows(v, span, n) == RowsBefore(v, span, a + n)
  {
    var x, y := a * v.blockTokens, v.blockTokens * n;
    Distribute(a, n, v.blockTokens);
    assert (a + n) * v.blockTokens == x + y;
    BlocksAdd(x, y, span);
    if y % span == 0 {
      WholeBlocks(y, span);
      MultiplesAdd(x, BlocksIn(y, span), span);
    }
  }

  lemma {:induction false} MultiplesAdd(x: nat, q: nat, k: nat)
    requires 0 < k
    ensures 0 <= q * k && BlocksIn(x + q * k, k) == BlocksIn(x, k) + q
    decreases q
  {
    if q > 0 {
      Distribute(q - 1, 1, k);
      MultiplesAdd(x, q - 1, k);
      assert x + q * k - k == x + (q - 1) * k;
    }
  }

  lemma RowsMonotone(v: View, span: nat, a: nat, b: nat)
    requires 0 < span && a <= b
    ensures RowsBefore(v, span, a) <= RowsBefore(v, span, b)
  {
    MulMonotone(a, b, v.blockTokens);
    BlocksInMonotone(a * v.blockTokens, b * v.blockTokens, span);
  }

  lemma WholeSpan(v: View, span: nat)
    requires 0 < span
    ensures RowsBefore(v, span, span) == v.blockTokens
  {
    BlocksInMultiple(v.blockTokens, span);
    assert span * v.blockTokens == v.blockTokens * span;
  }

  // A segment lies inside its physical block.
  lemma SegmentInBlock(v: View, span: nat, block: nat, offset: nat, n: nat)
    requires 0 < span && v.Valid() && offset + n <= span
    ensures block * v.blockStride + v.base <= OffsetAddr(v, span, block, offset)
    ensures OffsetAddr(v, span, block, offset) + SegmentBytes(v, span, n) <= block * v.blockStride + v.base + v.blockTokens * v.tokenStride
  {
    RowsEnd(v, span, offset, n);
    RowsFit(v, RowsBefore(v, span, offset), SegmentRows(v, span, n));
  }

  lemma RowsEnd(v: View, span: nat, offset: nat, n: nat)
    requires 0 < span && offset + n <= span
    ensures RowsBefore(v, span, offset) + SegmentRows(v, span, n) <= v.blockTokens
  {
    RowsAdd(v, span, offset, n);
    RowsMonotone(v, span, offset + n, span);
    WholeSpan(v, span);
  }

  // Rows of a block, from `first` on, take no more bytes than the block has.
  lemma RowsFit(v: View, first: nat, rows: nat)
    requires v.Valid() && first + rows <= v.blockTokens
    ensures 0 <= first * v.tokenStride && first * v.tokenStride + v.tokenBytes * rows <= v.blockTokens * v.tokenStride
  {
    MulMonotone(v.tokenBytes, v.tokenStride, rows);
    MulMonotone(first + rows, v.blockTokens, v.tokenStride);
    assert (first + rows) * v.tokenStride == first * v.tokenStride + rows * v.tokenStride;
  }

  // Segments of one block that follow each other in tokens do not overlap in bytes.
  lemma SegmentsFollow(v: View, span: nat, block: nat, a: nat, n: nat, b: nat)
    requires 0 < span && v.Valid() && a + n <= b
    ensures OffsetAddr(v, span, block, a) + SegmentBytes(v, span, n) <= OffsetAddr(v, span, block, b)
  {
    RowsAdd(v, span, a, n);
    RowsMonotone(v, span, a + n, b);
    RowsLeaveRoom(v, RowsBefore(v, span, a), SegmentRows(v, span, n), RowsBefore(v, span, b));
  }

  // Rows that end by the start of others take no bytes of these.
  lemma RowsLeaveRoom(v: View, first: nat, rows: nat, next: nat)
    requires v.Valid() && first + rows <= next
    ensures first * v.tokenStride + v.tokenBytes * rows <= next * v.tokenStride
  {
    MulMonotone(v.tokenBytes, v.tokenStride, rows);
    MulMonotone(first + rows, next, v.tokenStride);
    Distribute(first, rows, v.tokenStride);
  }

  lemma BlocksFollow(v: View, b: nat, c: nat)
    requires b < c
    ensures b * v.blockStride + v.base + v.blockStride <= c * v.blockStride + v.base
  {
    MulMonotone(b + 1, c, v.blockStride);
  }

  // The physical block that contains the end of hash block i is the one that contains
  // its start, when hash blocks divide the group's blocks.
  lemma HashBlockInside(h: nat, span: nat, i: nat)
    requires 0 < h && 0 < span && span % h == 0
    ensures (i * h + h - 1) / span == i * h / span
    ensures i * h % span + h <= span
    ensures i * h % span == (i % (span / h)) * h
    ensures i * h / span == i / (span / h)
  {
    var k := span / h;
    DivBounds(span, h);
    assert k * h == span && k > 0;
    DivBounds(i, k);
    var q, r := i / k, i % k;
    assert i * h == q * span + r * h by {
      Distribute(q * k, r, h);
      assert q * k * h == q * (k * h);
    }
    HashBlockAt(h, span, k, q, r);
  }

  // Where hash blocks divide the blocks of a full-attention group, the entry a part has
  // for a key is the block of each of its tokens.
  lemma EntryHoldsTokens(g: FawaPlan.GroupMeta, table: seq<nat>, h: nat, start: nat, end: nat, row: seq<Option<nat>>, i: nat, token: nat)
    requires 0 < h && 0 < g.tokenBlockSize && g.tokenBlockSize % h == 0 && !g.isWindow
    requires start <= i < end && FawaPlan.RightRow(g, table, h, start, end, false, row)
    requires i * h <= token < i * h + h && token / g.tokenBlockSize < |table|
    ensures row[i - start] == Some(table[token / g.tokenBlockSize])
    ensures token % g.tokenBlockSize == i * h % g.tokenBlockSize + (token - i * h)
  {
    TokenInBlock(h, g.tokenBlockSize, i, token);
    assert FawaPlan.EndsIn(h, g.tokenBlockSize, i, token / g.tokenBlockSize);
  }

  lemma TokenInBlock(h: nat, span: nat, i: nat, token: nat)
    requires 0 < h && 0 < span && span % h == 0 && i * h <= token < i * h + h
    ensures FawaPlan.EndsIn(h, span, i, token / span)
    ensures token % span == i * h % span + (token - i * h)
  {
    HashBlockInside(h, span, i);
    var b, x := i * h / span, i * h;
    DivBounds(x, span);
    DivBounds(x + h - 1, span);
    DivUnique(token, b, span);
    DivBounds(token, span);
    Distribute(b, 1, span);
  }

  lemma HashBlockAt(h: nat, span: nat, k: nat, q: nat, r: nat)
    requires 0 < h && span == k * h && r < k
    ensures 0 <= r * h && r * h + h <= span
    ensures (q * span + r * h) / span == q && (q * span + r * h) % span == r * h && (q * span + r * h + h - 1) / span == q
  {
    MulMonotone(r + 1, k, h);
    Distribute(r, 1, h);
    MulMonotone(0, r, h);
    var x := q * span + r * h;
    DivUnique(x, q, span);
    DivUnique(x + h - 1, q, span);
    DivBounds(x, span);
  }

  // Two hash blocks in different physical blocks, or different ones in one block, never
  // share a byte. `b` and `c` are the physical blocks that contain i and j.
  lemma HashBlocksApart(v: View, span: nat, h: nat, i: nat, j: nat, b: nat, c: nat)
    requires 0 < h && 0 < span && span % h == 0 && v.Valid()
    requires i != j && (b == c ==> i * h / span == j * h / span)
    ensures Apart(HashBlockAddr(v, span, h, b, i), SegmentBytes(v, span, h), HashBlockAddr(v, span, h, c, j), SegmentBytes(v, span, h))
  {
    HashBlockInside(h, span, i);
    HashBlockInside(h, span, j);
    SameAsOffset(v, span, h, b, i);
    SameAsOffset(v, span, h, c, j);
    var x, y := i * h % span, j * h % span;
    SegmentInBlock(v, span, b, x, h);
    SegmentInBlock(v, span, c, y, h);
    if b < c {
      BlocksFollow(v, b, c);
    } else if c < b {
      BlocksFollow(v, c, b);
    } else {
      DistinctOffsets(h, span, i, j);
      if x < y {
        SegmentsFollow(v, span, b, x, h, y);
      } else {
        SegmentsFollow(v, span, b, y, h, x);
      }
    }
  }

  lemma SameAsOffset(v: View, span: nat, h: nat, block: nat, i: nat)
    requires 0 < span
    ensures HashBlockAddr(v, span, h, block, i) == OffsetAddr(v, span, block, i * h % span)
  {
    if h == span {
      DivMultiple(i, span);
      assert RowsBefore(v, span, 0) == 0 by { assert 0 * v.blockTokens == 0; }
      assert RowsBefore(v, span, i * h % span) * v.tokenStride == 0;
    }
  }

  // Different hash blocks of one physical block start at offsets a hash block apart.
  lemma DistinctOffsets(h: nat, span: nat, i: nat, j: nat)
    requires 0 < h && 0 < span && span % h == 0 && i != j && i * h / span == j * h / span
    ensures i * h % span + h <= j * h % span || j * h % span + h <= i * h % span
  {
    HashBlockInside(h, span, i);
    HashBlockInside(h, span, j);
    var k := span / h;
    DivBounds(span, h);
    assert k * h == span && k > 0;
    DivBounds(i, k);
    DivBounds(j, k);
    var r, s := i % k, j % k;
    if r < s {
      MulMonotone(r + 1, s, h);
    } else {
      MulMonotone(s + 1, r, h);
    }
  }

  // In a table without repeated blocks, no two hash blocks of a request share a byte.
  // `p` and `q` are the table entries of i and j.
  lemma RequestBlocksApart(v: View, span: nat, h: nat, table: seq<nat>, i: nat, j: nat, p: nat, q: nat)
    requires 0 < h && 0 < span && span % h == 0 && v.Valid() && i != j
    requires p < |table| && q < |table| && (table[p] == table[q] ==> p == q)
    requires p == (i * h + h - 1) / span && q == (j * h + h - 1) / span
    ensures Apart(HashBlockAddr(v, span, h, table[p], i), SegmentBytes(v, span, h),
                  HashBlockAddr(v, span, h, table[q], j), SegmentBytes(v, span, h))
  {
    HashBlockInside(h, span, i);
    HashBlockInside(h, span, j);
    var b, c := table[p], table[q];
    HashBlocksApart(v, span, h, i, j, b, c);
  }

  // The blocks of different views of a group never overlap.
  ghost predicate ViewsApart(views: seq<View>) {
    forall k, l, b: nat, c: nat :: 0 <= k < |views| && 0 <= l < |views| && k != l ==>
      BlocksOfViewsApart(views[k], views[l], b, c)
  }

  ghost predicate BlocksOfViewsApart(v: View, w: View, b: nat, c: nat) {
    Apart(b * v.blockStride + v.base, v.blockTokens * v.tokenStride, c * w.blockStride + w.base, w.blockTokens * w.tokenStride)
  }

  // No two segments of a request share a byte, be they of one view or of two.
  lemma GroupBlocksApart(views: seq<View>, span: nat, h: nat, table: seq<nat>, k: nat, l: nat, i: nat, j: nat, p: nat, q: nat)
    requires 0 < h && 0 < span && span % h == 0 && k < |views| && l < |views| && (k != l || i != j)
    requires views[k].Valid() && views[l].Valid() && ViewsApart(views)
    requires p < |table| && q < |table| && (table[p] == table[q] ==> p == q)
    requires p == (i * h + h - 1) / span && q == (j * h + h - 1) / span
    ensures Apart(HashBlockAddr(views[k], span, h, table[p], i), SegmentBytes(views[k], span, h),
                  HashBlockAddr(views[l], span, h, table[q], j), SegmentBytes(views[l], span, h))
  {
    if k == l {
      RequestBlocksApart(views[k], span, h, table, i, j, p, q);
    } else {
      HashBlockWithin(views[k], span, h, table[p], i);
      HashBlockWithin(views[l], span, h, table[q], j);
      assert BlocksOfViewsApart(views[k], views[l], table[p], table[q]);
      WithinViews(views[k], views[l], table[p], table[q], HashBlockAddr(views[k], span, h, table[p], i), SegmentBytes(views[k], span, h),
                  HashBlockAddr(views[l], span, h, table[q], j), SegmentBytes(views[l], span, h));
    }
  }

  lemma HashBlockWithin(v: View, span: nat, h: nat, block: nat, i: nat)
    requires 0 < h && 0 < span && span % h == 0 && v.Valid()
    ensures WithinBlock(v, block, HashBlockAddr(v, span, h, block, i), SegmentBytes(v, span, h))
  {
    HashBlockInside(h, span, i);
    SameAsOffset(v, span, h, block, i);
    SegmentInBlock(v, span, block, i * h % span, h);
  }

  ghost predicate WithinBlock(v: View, block: nat, a: nat, n: nat) {
    block * v.blockStride + v.base <= a && a + n <= block * v.blockStride + v.base + v.blockTokens * v.tokenStride
  }

  lemma WithinViews(v: View, w: View, b: nat, c: nat, a: nat, n: nat, d: nat, m: nat)
    requires BlocksOfViewsApart(v, w, b, c) && WithinBlock(v, b, a, n) && WithinBlock(w, c, d, m)
    ensures Apart(a, n, d, m)
  {
  }

  // Consecutive hash blocks of a physical block leave no row between them exactly when
  // the rows of a hash block are a whole number.
  lemma RowsAreWhole(v: View, span: nat, h: nat)
    requires 0 < h && 0 < span && span % h == 0
    ensures (forall j: nat :: (j + 1) * h <= span ==> RowsEndAt(v, span, h, j)) <==> v.blockTokens * h % span == 0
  {
    if v.blockTokens * h % span == 0 {
      forall j: nat | (j + 1) * h <= span ensures RowsEndAt(v, span, h, j) {
        RowsAdd(v, span, j * h, h);
        assert (j + 1) * h == j * h + h;
      }
    } else {
      SomeRowIsLost(v, span, h);
    }
  }

  // Hash block j ends where the next one starts.
  ghost predicate RowsEndAt(v: View, span: nat, h: nat, j: nat)
    requires 0 < span
  {
    RowsBefore(v, span, j * h) + SegmentRows(v, span, h) == RowsBefore(v, span, (j + 1) * h)
  }

  // If every hash block ended where the next starts, k equal shares would fill the block.
  lemma {:induction false} SharesFill(v: View, span: nat, h: nat, n: nat)
    requires 0 < h && 0 < span && n * h <= span
    requires forall j: nat :: (j + 1) * h <= span ==> RowsEndAt(v, span, h, j)
    ensures RowsBefore(v, span, n * h) == n * SegmentRows(v, span, h)
  {
    var rows := SegmentRows(v, span, h);
    if n == 0 {
      assert 0 * h == 0 && 0 * v.blockTokens == 0 && 0 * rows == 0;
    } else {
      assert n * h == (n - 1) * h + h;
      SharesFill(v, span, h, n - 1);
      assert RowsEndAt(v, span, h, n - 1);
      assert n * rows == (n - 1) * rows + rows;
    }
  }

  lemma SomeRowIsLost(v: View, span: nat, h: nat)
    requires 0 < h && 0 < span && span % h == 0 && v.blockTokens * h % span != 0
    ensures exists j: nat :: (j + 1) * h <= span && !RowsEndAt(v, span, h, j)
  {
    if forall j: nat :: (j + 1) * h <= span ==> RowsEndAt(v, span, h, j) {
      var k := span / h;
      DivBounds(span, h);
      SharesFill(v, span, h, k);
      WholeSpan(v, span);
      var rows := SegmentRows(v, span, h);
      assert v.blockTokens * h == rows * span by {
        assert k * rows * h == rows * (k * h);
      }
      DivMultiple(rows, span);
    }
  }

  // The tail of a window kept at the end of a larger block lies inside that block.
  lemma ShortTailInBlock(v: View, span: nat, block: nat, tail: nat)
    requires 0 < span && v.Valid() && tail < span
    ensures block * v.blockStride + v.base <= OffsetAddr(v, span, block, span - tail)
    ensures OffsetAddr(v, span, block, span - tail) + SegmentBytes(v, span, tail) <= block * v.blockStride + v.base + v.blockTokens * v.tokenStride
  {
    SegmentInBlock(v, span, block, span - tail, tail);
  }
}
