/** Facts about products and quotients that the solver should not rediscover. */
module Arithmetic {
  lemma MulMonotone(a: int, b: int, k: nat)
    requires a <= b
    ensures a * k <= b * k
  {
    assert (b - a) * k >= 0;
  }

  lemma DivBounds(a: nat, k: nat)
    requires 0 < k
    ensures (a / k) * k <= a < (a / k) * k + k
    ensures (a / k) * k + a % k == a
  {
  }

  lemma DivUnique(a: nat, q: nat, k: nat)
    requires 0 < k && q * k <= a < q * k + k
    ensures a / k == q
  {
    DivBounds(a, k);
    var p := a / k;
    if p < q {
      MulMonotone(p + 1, q, k);
    } else if q < p {
      MulMonotone(q + 1, p, k);
    }
  }

  lemma DivMonotone(a: nat, b: nat, k: nat)
    requires 0 < k && a <= b
    ensures a / k <= b / k
  {
    DivBounds(a, k);
    DivBounds(b, k);
    var p, q := a / k, b / k;
    if q < p {
      MulMonotone(q + 1, p, k);
    }
  }

  lemma DivMultiple(q: nat, k: nat)
    requires 0 < k
    ensures (q * k) / k == q && (q * k) % k == 0
  {
    DivUnique(q * k, q, k);
    DivBounds(q * k, k);
  }

  // The whole blocks in the first `length` tokens, counted one by one.
  function BlocksIn(length: nat, size: nat): nat
    requires 0 < size
  {
    if length < size then 0 else 1 + BlocksIn(length - size, size)
  }

  lemma {:induction false} BlocksInIsQuotient(length: nat, size: nat)
    requires 0 < size
    ensures BlocksIn(length, size) == length / size
  {
    if size <= length {
      BlocksInIsQuotient(length - size, size);
      DivBounds(length - size, size);
      DivUnique(length, (length - size) / size + 1, size);
    } else {
      DivUnique(length, 0, size);
    }
  }

  lemma BlocksInBounds(length: nat, size: nat)
    requires 0 < size
    ensures BlocksIn(length, size) * size <= length < BlocksIn(length, size) * size + size
  {
    BlocksInIsQuotient(length, size);
    DivBounds(length, size);
  }

  lemma {:induction false} BlocksAdd(a: nat, b: nat, size: nat)
    requires 0 < size
    ensures BlocksIn(a, size) + BlocksIn(b, size) <= BlocksIn(a + b, size) <= BlocksIn(a, size) + BlocksIn(b, size) + 1
  {
    if size <= a {
      BlocksAdd(a - size, b, size);
    } else if size <= b {
      BlocksAdd(a, b - size, size);
    }
  }

  lemma WholeBlocks(length: nat, size: nat)
    requires 0 < size && length % size == 0
    ensures BlocksIn(length, size) * size == length
  {
    BlocksInIsQuotient(length, size);
    DivBounds(length, size);
  }

  lemma Distribute(a: int, b: int, k: int)
    ensures (a + b) * k == a * k + b * k
  {
  }

  lemma BlocksInMultiple(q: nat, size: nat)
    requires 0 < size
    ensures BlocksIn(q * size, size) == q
  {
    BlocksInIsQuotient(q * size, size);
    DivMultiple(q, size);
  }

  lemma {:induction false} BlocksInMonotone(a: nat, b: nat, size: nat)
    requires 0 < size && a <= b
    ensures BlocksIn(a, size) <= BlocksIn(b, size)
  {
    if size <= a {
      BlocksInMonotone(a - size, b - size, size);
    }
  }

  // The last block boundary among the first `length` tokens.
  function LastBoundary(length: nat, size: nat): (r: nat)
    requires 0 < size
    ensures r <= length < r + size
  {
    if length < size then 0 else size + LastBoundary(length - size, size)
  }

  lemma {:induction false} LastBoundaryInBlocks(length: nat, size: nat)
    requires 0 < size
    ensures LastBoundary(length, size) == BlocksIn(length, size) * size
  {
    if size <= length {
      LastBoundaryInBlocks(length - size, size);
      Distribute(BlocksIn(length - size, size), 1, size);
    }
  }

  lemma LastBoundaryIsMultiple(length: nat, size: nat)
    requires 0 < size
    ensures LastBoundary(length, size) == (length / size) * size
    ensures LastBoundary(length, size) == length <==> length % size == 0
  {
    LastBoundaryInBlocks(length, size);
    BlocksInIsQuotient(length, size);
    DivBounds(length, size);
  }
}
