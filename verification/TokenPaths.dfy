/** How token sequences and paths of token blocks determine each other. */
module TokenPaths {
  import opened Basics
  import opened RadixTree
  import opened PrefixCaching

  /** The tokens up to and including offset `o` of the last block of a path. */
  function Upto(path: seq<TokenBlock>, o: nat): seq<Token>
    requires path != [] && o < |path[|path| - 1]|
  {
    Flat(path[..|path| - 1]) + path[|path| - 1][..o + 1]
  }

  function Flat(path: seq<TokenBlock>): seq<Token> {
    if path == [] then [] else Flat(path[..|path| - 1]) + path[|path| - 1]
  }

  lemma PagePosition(p: nat, blockSize: nat)
    requires blockSize > 0
    ensures p == Times(p / blockSize, blockSize) + p % blockSize && 0 <= p % blockSize < blockSize
  {
  }

  lemma PageOf(p: nat, i: nat, o: nat, blockSize: nat)
    requires blockSize > 0 && o < blockSize && p == Times(i, blockSize) + o
    ensures p / blockSize == i && p % blockSize == o
  {
    var q := p / blockSize;
    assert p == q * blockSize + p % blockSize;
    if q < i {
      MulMonotone(q + 1, i, blockSize);
    } else if i < q {
      MulMonotone(i + 1, q, blockSize);
    }
  }

  /** A position below a whole number of pages is on one of those pages. */
  lemma PageBelow(p: nat, n: nat, blockSize: nat)
    requires blockSize > 0
    ensures p < Times(n, blockSize) <==> p / blockSize < n
  {
    var q := p / blockSize;
    assert p == q * blockSize + p % blockSize;
    if q < n {
      MulMonotone(q + 1, n, blockSize);
    } else {
      MulMonotone(n, q, blockSize);
    }
  }

  lemma WholePages(length: nat, blockSize: nat, n: nat)
    requires blockSize > 0
    ensures n <= length / blockSize <==> Times(n, blockSize) <= length
  {
    var q := length / blockSize;
    assert length == q * blockSize + length % blockSize;
    if n <= q {
      MulMonotone(n, q, blockSize);
    } else {
      MulMonotone(q + 1, n, blockSize);
    }
  }

  /** The leading blocks are exactly the leading tokens. */
  lemma {:induction false} FlatChunks(tokens: seq<Token>, blockSize: nat, n: nat)
    requires blockSize > 0 && n <= |tokens| / blockSize
    ensures Times(n, blockSize) <= |tokens|
    ensures Flat(Chunks(tokens, blockSize)[..n]) == tokens[..Times(n, blockSize)]
  {
    WholePages(|tokens|, blockSize, n);
    var path := Chunks(tokens, blockSize)[..n];
    if n > 0 {
      FlatChunks(tokens, blockSize, n - 1);
      ChunkFits(|tokens|, blockSize, n - 1);
      assert path[..n - 1] == Chunks(tokens, blockSize)[..n - 1];
      assert path[n - 1] == tokens[(n - 1) * blockSize..n * blockSize];
    }
  }

  /** The tokens up to a position, read off the path of its page. */
  lemma UptoChunks(tokens: seq<Token>, blockSize: nat, p: nat)
    requires blockSize > 0 && p / blockSize < |tokens| / blockSize
    ensures p < |tokens|
    ensures var path := Chunks(tokens, blockSize)[..p / blockSize + 1];
            && |path[|path| - 1]| == blockSize
            && Upto(path, p % blockSize) == tokens[..p + 1]
  {
    var i, o := p / blockSize, p % blockSize;
    PagePosition(p, blockSize);
    FlatChunks(tokens, blockSize, i);
    ChunkFits(|tokens|, blockSize, i);
    var path := Chunks(tokens, blockSize)[..i + 1];
    assert path[..i] == Chunks(tokens, blockSize)[..i];
    assert path[i] == Chunk(tokens, blockSize, i);
    JoinSlices(tokens, i * blockSize, (i + 1) * blockSize, o + 1);
  }

  lemma JoinSlices(tokens: seq<Token>, a: nat, b: nat, n: nat)
    requires a + n <= b <= |tokens|
    ensures tokens[..a] + tokens[a..b][..n] == tokens[..a + n]
  {
  }

  /** More tokens leave the complete blocks in place. */
  lemma ChunksExtend(tokens: seq<Token>, more: seq<Token>, blockSize: nat)
    requires blockSize > 0
    ensures |tokens| / blockSize <= |tokens + more| / blockSize
    ensures Chunks(tokens + more, blockSize)[..|tokens| / blockSize] == Chunks(tokens, blockSize)
  {
    WholePages(|tokens|, blockSize, |tokens| / blockSize);
    WholePages(|tokens + more|, blockSize, |tokens| / blockSize);
    var a, b := Chunks(tokens + more, blockSize)[..|tokens| / blockSize], Chunks(tokens, blockSize);
    forall i | 0 <= i < |b| ensures a[i] == b[i] {
      ChunkFits(|tokens|, blockSize, i);
      ChunkFits(|tokens + more|, blockSize, i);
    }
  }
}
