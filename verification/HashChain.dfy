/**
 Block ids as an ideal, collision-free hash: a digest is the free term of what was
 hashed. Every block id is chained to the id of the block before it.
 */
module HashChain {
  import opened Arithmetic

  type Token = int

  // What a request hasher of one rank is applied to.
  datatype Hash =
    | Seed(rank: nat)                                                // a fixed text
    | Block(rank: nat, parent: Hash, tokens: seq<Token>)             // (parent id, block tokens)
    | Rescoped(rank: nat, rank0Id: Hash)                             // another rank's key for a rank-0 id
    | GroupSeed(rank: nat, base: Hash, group: nat)                   // the chain seed of one cache group
    | GroupState(rank: nat, seed: Hash, seqLen: nat, prefix: Hash)   // a state key at one boundary
    | Blank                                                          // the empty key

  function BlockTokens(blockSize: nat, tokens: seq<Token>, i: nat): seq<Token>
    requires (i + 1) * blockSize <= |tokens|
  {
    assert i * blockSize <= (i + 1) * blockSize;
    tokens[i * blockSize..(i + 1) * blockSize]
  }

  lemma InBlocks(blockSize: nat, length: nat, i: nat)
    requires 0 < blockSize
    ensures i < BlocksIn(length, blockSize) <==> (i + 1) * blockSize <= length
  {
    var q := BlocksIn(length, blockSize);
    BlocksInBounds(length, blockSize);
    if i < q {
      assert (i + 1) * blockSize <= q * blockSize;
    } else {
      assert (i + 1) * blockSize >= (q + 1) * blockSize == q * blockSize + blockSize;
    }
  }

  // The id of block i of a token list.
  function BlockId(rank: nat, blockSize: nat, tokens: seq<Token>, seed: Hash, i: nat): Hash
    requires 0 < blockSize && (i + 1) * blockSize <= |tokens|
  {
    assert i * blockSize <= (i + 1) * blockSize;
    Block(rank, if i == 0 then seed else BlockId(rank, blockSize, tokens, seed, i - 1), BlockTokens(blockSize, tokens, i))
  }

  // The ids of all full blocks.
  function Chain(rank: nat, blockSize: nat, tokens: seq<Token>, seed: Hash): (ids: seq<Hash>)
    requires 0 < blockSize
    ensures |ids| == BlocksIn(|tokens|, blockSize)
  {
    seq(BlocksIn(|tokens|, blockSize), i requires 0 <= i < BlocksIn(|tokens|, blockSize) =>
      InBlocks(blockSize, |tokens|, i); BlockId(rank, blockSize, tokens, seed, i))
  }

  lemma ChainAt(rank: nat, blockSize: nat, tokens: seq<Token>, seed: Hash, n: nat)
    requires 0 < blockSize && (n + 1) * blockSize <= |tokens|
    ensures n < |Chain(rank, blockSize, tokens, seed)|
    ensures Chain(rank, blockSize, tokens, seed)[n] == BlockId(rank, blockSize, tokens, seed, n)
    ensures Chain(rank, blockSize, tokens, seed)[n] ==
            Block(rank, if n == 0 then seed else Chain(rank, blockSize, tokens, seed)[n - 1],
                  BlockTokens(blockSize, tokens, n))
  {
    InBlocks(blockSize, |tokens|, n);
  }

  // Hashes the full blocks of a request one after the other, each with the id before it.
  method GenerateHash(rank: nat, blockSize: nat, tokens: seq<Token>, parentBlockHash: Hash) returns (ret: seq<Hash>)
    requires 0 < blockSize
    ensures ret == Chain(rank, blockSize, tokens, parentBlockHash)
  {
    ghost var ids := Chain(rank, blockSize, tokens, parentBlockHash);
    ret := [];
    var parent := parentBlockHash;
    var start := 0;
    while start < |tokens|
      invariant start == |ret| * blockSize
      invariant |ret| <= |ids| && ret == ids[..|ret|]
      invariant parent == if |ret| == 0 then parentBlockHash else ids[|ret| - 1]
      decreases |tokens| + blockSize - start
    {
      var end := start + blockSize;
      assert end == (|ret| + 1) * blockSize;
      if |tokens| < end {
        break;
      }
      ChainAt(rank, blockSize, tokens, parentBlockHash, |ret|);
      parent := Block(rank, parent, tokens[start..end]);
      ret := ret + [parent];
      start := end;
    }
    assert |ret| == |ids| by {
      assert (|ret| + 1) * blockSize == |ret| * blockSize + blockSize;
      InBlocks(blockSize, |tokens|, |ret|);
    }
  }

  // The tokens an id stands for: those of its own block and of all blocks before it.
  function TokensOf(id: Hash): seq<Token> {
    match id
    case Block(_, parent, tokens) => TokensOf(parent) + tokens
    case Rescoped(_, id) => TokensOf(id)
    case _ => []
  }

  // Ranks share no keys unless they hold the same KV, as under MLA.
  lemma RankKeysApart(rank: nat, other: nat, isMla: bool, a: Hash, b: Hash)
    requires !a.Rescoped? && !b.Rescoped?
    ensures RankKey(rank, isMla, a) == RankKey(other, isMla, b) <==> a == b && (isMla || rank == other)
  {
  }

  lemma {:induction false} TokensOfBlockId(rank: nat, blockSize: nat, tokens: seq<Token>, seed: Hash, i: nat)
    requires 0 < blockSize && (i + 1) * blockSize <= |tokens| && !seed.Block? && !seed.Rescoped?
    ensures TokensOf(BlockId(rank, blockSize, tokens, seed, i)) == tokens[..(i + 1) * blockSize]
  {
    assert i * blockSize <= (i + 1) * blockSize;
    if i > 0 {
      TokensOfBlockId(rank, blockSize, tokens, seed, i - 1);
    } else {
      assert TokensOf(seed) == [];
    }
    assert tokens[..i * blockSize] + BlockTokens(blockSize, tokens, i) == tokens[..(i + 1) * blockSize];
  }

  lemma {:induction false} BlockIdFromPrefix(rank: nat, blockSize: nat, a: seq<Token>, b: seq<Token>, seed: Hash, i: nat)
    requires 0 < blockSize && (i + 1) * blockSize <= |a| && (i + 1) * blockSize <= |b|
    requires a[..(i + 1) * blockSize] == b[..(i + 1) * blockSize]
    ensures BlockId(rank, blockSize, a, seed, i) == BlockId(rank, blockSize, b, seed, i)
  {
    var end := (i + 1) * blockSize;
    assert i * blockSize <= end;
    assert BlockTokens(blockSize, a, i) == a[..end][i * blockSize..] == BlockTokens(blockSize, b, i);
    if i > 0 {
      assert a[..i * blockSize] == a[..end][..i * blockSize] == b[..i * blockSize];
      BlockIdFromPrefix(rank, blockSize, a, b, seed, i - 1);
    }
  }

  // Two requests share a block id exactly when it is the same block index and all
  // tokens up to the end of that block agree; in particular ids within a request differ.
  lemma {:induction false} SharedIdIffSharedPrefix(rank: nat, blockSize: nat, a: seq<Token>, b: seq<Token>, seed: Hash, i: nat, j: nat)
    requires 0 < blockSize && !seed.Block? && !seed.Rescoped?
    requires (i + 1) * blockSize <= |a| && (j + 1) * blockSize <= |b|
    ensures BlockId(rank, blockSize, a, seed, i) == BlockId(rank, blockSize, b, seed, j) <==>
            i == j && a[..(i + 1) * blockSize] == b[..(j + 1) * blockSize]
  {
    TokensOfBlockId(rank, blockSize, a, seed, i);
    TokensOfBlockId(rank, blockSize, b, seed, j);
    if i == j && a[..(i + 1) * blockSize] == b[..(j + 1) * blockSize] {
      BlockIdFromPrefix(rank, blockSize, a, b, seed, i);
    }
    if BlockId(rank, blockSize, a, seed, i) == BlockId(rank, blockSize, b, seed, j) {
      assert (i + 1) * blockSize == (j + 1) * blockSize;
      assert (i - j) * blockSize == 0;
    }
  }

  // The key under which a rank keeps its share of a rank-0 block.
  function RankKey(rank: nat, isMla: bool, id: Hash): (key: Hash)
    ensures TokensOf(key) == TokensOf(id)
  {
    if rank == 0 || isMla then id else Rescoped(rank, id)
  }
}
