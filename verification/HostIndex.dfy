/**
 The block-radix index of the host cache, as a map from paths to the stored keys below
 them, and what it should contain.
 */
module HostIndex {
  import opened Basics
  import opened RadixTree
  import opened PrefixCaching
  import opened TokenPaths

  datatype HostKey = HostKey(ns: string, tokens: seq<Token>)

  datatype HostNode = HostNode(ns: string, path: seq<TokenBlock>)

  type Index = map<HostNode, set<HostKey>>

  predicate On(node: HostNode, ns: string, path: seq<TokenBlock>) {
    node.ns == ns && 0 < |node.path| && node.path <= path
  }

  /** A stored key lies below a node. */
  predicate Under(k: HostKey, blockSize: nat, node: HostNode)
    requires blockSize > 0
  {
    On(node, k.ns, Chunks(k.tokens, blockSize))
  }

  function SourcesAt(index: Index, node: HostNode): set<HostKey> {
    if node in index then index[node] else {}
  }

  /** The index lists exactly the stored keys below each node, and has no other node. */
  ghost predicate Indexed(index: Index, keys: set<HostKey>, blockSize: nat) {
    && blockSize > 0
    && (forall node, k :: k in SourcesAt(index, node) <==> k in keys && Under(k, blockSize, node))
    && (forall node :: node in index ==> index[node] != {})
  }

  /** A key joins every node on its path, or leaves it. */
  ghost predicate Changed(index: Index, index': Index, key: HostKey, path: seq<TokenBlock>, joins: bool) {
    && (forall node, k :: k in SourcesAt(index', node) <==>
          if k == key && On(node, key.ns, path) then joins else k in SourcesAt(index, node))
    && ((forall node :: node in index ==> index[node] != {}) ==> (forall node :: node in index' ==> index'[node] != {}))
  }

  lemma ChangedNothing(index: Index, key: HostKey, joins: bool)
    ensures Changed(index, index, key, [], joins)
  {
  }

  lemma OnLonger(node: HostNode, ns: string, path: seq<TokenBlock>, i: nat)
    requires i < |path|
    ensures On(node, ns, path[..i + 1]) <==> On(node, ns, path[..i]) || node == HostNode(ns, path[..i + 1])
  {
    assert path[..i] == path[..i + 1][..i];
    if On(node, ns, path[..i + 1]) {
      assert node.path == path[..i + 1][..|node.path|];
    }
  }

  /** One more node of the path has its sources right. */
  lemma ChangedNext(index: Index, before: Index, after: Index, key: HostKey, path: seq<TokenBlock>, i: nat, joins: bool)
    requires i < |path| && Changed(index, before, key, path[..i], joins)
    requires var node := HostNode(key.ns, path[..i + 1]);
             var sources := if joins then SourcesAt(before, node) + {key} else SourcesAt(before, node) - {key};
             after == if sources == {} then before - {node} else before[node := sources]
    ensures Changed(index, after, key, path[..i + 1], joins)
  {
    var next := HostNode(key.ns, path[..i + 1]);
    forall node, k ensures k in SourcesAt(after, node) <==>
                           if k == key && On(node, key.ns, path[..i + 1]) then joins else k in SourcesAt(index, node)
    {
      OnLonger(node, key.ns, path, i);
      assert k in SourcesAt(before, node) <==>
             if k == key && On(node, key.ns, path[..i]) then joins else k in SourcesAt(index, node);
    }
  }

  lemma IndexedAdd(index: Index, index': Index, keys: set<HostKey>, blockSize: nat, key: HostKey)
    requires Indexed(index, keys, blockSize) && Changed(index, index', key, Chunks(key.tokens, blockSize), true)
    ensures Indexed(index', keys + {key}, blockSize)
  {
    hide Chunks;
  }

  lemma IndexedRemove(index: Index, index': Index, keys: set<HostKey>, blockSize: nat, key: HostKey)
    requires Indexed(index, keys, blockSize) && Changed(index, index', key, Chunks(key.tokens, blockSize), false)
    ensures Indexed(index', keys - {key}, blockSize)
  {
    hide Chunks;
    forall node, k ensures k in SourcesAt(index', node) <==> k in keys - {key} && Under(k, blockSize, node) {
      assert k in SourcesAt(index, node) <==> k in keys && Under(k, blockSize, node);
    }
  }

  /** An index that still lists one key nobody stores. */
  lemma IndexedDangles(index: Index, keys: set<HostKey>, blockSize: nat, key: HostKey)
    requires Indexed(index, keys, blockSize) && key in keys
    ensures Indexed(index, keys - {key}, blockSize) <==> Chunks(key.tokens, blockSize) == []
  {
    hide Chunks;
    var path := Chunks(key.tokens, blockSize);
    if path != [] {
      var node := HostNode(key.ns, path);
      assert On(node, key.ns, path) && Under(key, blockSize, node);
      assert key in SourcesAt(index, node);
    }
  }

  // ----- brute force

  /** Some stored key shares the first `n` blocks of `tokens`. */
  ghost predicate Shares(keys: set<HostKey>, blockSize: nat, ns: string, tokens: seq<Token>, n: nat) {
    && blockSize > 0 && 0 < n <= |tokens| / blockSize
    && exists k :: k in keys && Under(k, blockSize, HostNode(ns, Chunks(tokens, blockSize)[..n]))
  }

  /** The longest block-aligned prefix shared with any stored key, found by trying every length. */
  ghost function LongestShared(keys: set<HostKey>, blockSize: nat, ns: string, tokens: seq<Token>, limit: nat): (n: nat)
    ensures n <= limit && (n > 0 ==> Shares(keys, blockSize, ns, tokens, n))
    ensures forall m :: n < m <= limit ==> !Shares(keys, blockSize, ns, tokens, m)
  {
    if limit == 0 then 0
    else if Shares(keys, blockSize, ns, tokens, limit) then limit
    else LongestShared(keys, blockSize, ns, tokens, limit - 1)
  }

  /** Whoever shares more blocks shares fewer. */
  lemma SharesFewer(keys: set<HostKey>, blockSize: nat, ns: string, tokens: seq<Token>, n: nat, m: nat)
    requires Shares(keys, blockSize, ns, tokens, n) && 0 < m <= n
    ensures Shares(keys, blockSize, ns, tokens, m)
  {
    hide Chunks;
    var path := Chunks(tokens, blockSize);
    var k :| k in keys && Under(k, blockSize, HostNode(ns, path[..n]));
    assert path[..m] == path[..n][..m];
    assert Under(k, blockSize, HostNode(ns, path[..m]));
  }

  /** A key below a node of a prompt's path starts with the prompt's tokens. */
  lemma UnderMeansSharing(k: HostKey, blockSize: nat, ns: string, tokens: seq<Token>, n: nat)
    requires blockSize > 0 && 0 < n <= |tokens| / blockSize
    ensures Times(n, blockSize) <= |tokens|
    ensures Under(k, blockSize, HostNode(ns, Chunks(tokens, blockSize)[..n])) <==>
              k.ns == ns && Times(n, blockSize) <= |k.tokens| && k.tokens[..Times(n, blockSize)] == tokens[..Times(n, blockSize)]
  {
    hide Chunks, Flat;
    WholePages(|tokens|, blockSize, n);
    WholePages(|k.tokens|, blockSize, n);
    FlatChunks(tokens, blockSize, n);
    var path, whole := Chunks(tokens, blockSize)[..n], Chunks(k.tokens, blockSize);
    if n <= |k.tokens| / blockSize {
      FlatChunks(k.tokens, blockSize, n);
      assert path <= whole <==> whole[..n] == path;
      if k.tokens[..Times(n, blockSize)] == tokens[..Times(n, blockSize)] {
        SameChunks(k.tokens, tokens, blockSize, n);
      }
    }
  }

  lemma SameChunks(a: seq<Token>, b: seq<Token>, blockSize: nat, n: nat)
    requires blockSize > 0 && n <= |a| / blockSize && n <= |b| / blockSize
    requires Times(n, blockSize) <= |a| && Times(n, blockSize) <= |b|
    requires a[..Times(n, blockSize)] == b[..Times(n, blockSize)]
    ensures Chunks(a, blockSize)[..n] == Chunks(b, blockSize)[..n]
  {
    var m := Times(n, blockSize);
    ChunksOfPrefix(a, blockSize, n);
    ChunksOfPrefix(b, blockSize, n);
  }

  lemma ChunksOfPrefix(a: seq<Token>, blockSize: nat, n: nat)
    requires blockSize > 0 && n <= |a| / blockSize && Times(n, blockSize) <= |a|
    ensures |a[..Times(n, blockSize)]| / blockSize == n
    ensures Chunks(a, blockSize)[..n] == Chunks(a[..Times(n, blockSize)], blockSize)
  {
    var m := Times(n, blockSize);
    WholePages(m, blockSize, n);
    WholePages(m, blockSize, n + 1);
    MulMonotone(n, n + 1, blockSize);
    assert a == a[..m] + a[m..];
    ChunksExtend(a[..m], a[m..], blockSize);
  }
}
