/**
 What it means for requests and the radix tree to share pages soundly.

 A page that was published in the tree has an identity: the path whose keys and values
 it holds. Whoever else refers to such a page refers to it for that same path; a page
 without an identity belongs to a single request.
 */
module PageSharing {
  import opened Basics
  import opened BlockManager
  import opened RadixTree
  import opened PrefixCaching
  import opened TokenPaths

  type Contents = map<int, seq<Token>>
  type Identities = map<int, Key>

  /** Page `i` of a request with this content holds the keys and values of path `k`. */
  ghost predicate PageIs(content: seq<Token>, i: nat, blockSize: nat, k: Key) {
    && blockSize > 0
    && i < |content| / blockSize
    && k.path == Chunks(content, blockSize)[..i + 1]
  }

  ghost predicate NodesIdentified(t: Tree, ns: CacheNamespace, identity: Identities) {
    && (forall k :: BlockAt(t, k).Some? ==> BlockAt(t, k).value in identity && identity[BlockAt(t, k).value] == k)
    && (forall b :: b in identity ==> identity[b].ns == ns && identity[b].path != [])
  }

  ghost predicate RequestsIdentified(blockSize: nat, allocations: Allocations, content: Contents, identity: Identities) {
    && content.Keys == allocations.Keys
    && (forall r :: r in allocations ==> |content[r]| == allocations[r].numTokens)
    && (forall r, i :: r in allocations && 0 <= i < |allocations[r].blockIds| && allocations[r].blockIds[i] in identity ==>
          PageIs(content[r], i, blockSize, identity[allocations[r].blockIds[i]]))
  }

  /** A page two requests list has an identity. */
  ghost predicate CommonIdentified(allocations: Allocations, identity: Identities) {
    forall r, r', b | r in allocations && r' in allocations && r != r' && b in allocations[r].blockIds :: b in allocations[r'].blockIds ==> b in identity
  }

  ghost predicate Sharing(t: Tree, ns: CacheNamespace, blockSize: nat, allocations: Allocations, content: Contents, identity: Identities) {
    && NodesIdentified(t, ns, identity)
    && RequestsIdentified(blockSize, allocations, content, identity)
    && CommonIdentified(allocations, identity)
  }

  // ----- the reference ledger

  ghost function Pages(t: Tree): set<int> {
    set k | k in t && t[k].block.Some? :: t[k].block.value
  }

  /**
   Ownership is conserved: beyond its requests, a page is referred to once per tree
   node that holds it, and once per copy that was lost with a dropped root.
   */
  ghost predicate Conserved(numBlocks: nat, refcounts: seq<nat>, allocations: Allocations, t: Tree, lost: seq<int>) {
    && |refcounts| == numBlocks
    && (forall b :: b in Pages(t) ==> 0 <= b < numBlocks)
    && (forall b :: b in lost ==> 0 <= b < numBlocks)
    && (forall b :: 0 <= b < numBlocks ==> refcounts[b] == |Holders(allocations, b)| + TreeReferences(t, lost, b))
  }

  ghost function TreeReferences(t: Tree, lost: seq<int>, b: int): nat {
    (if b in Pages(t) then 1 else 0) + multiset(lost)[b]
  }

  lemma PagesAre(t: Tree)
    ensures forall b :: b in Pages(t) <==> exists k :: BlockAt(t, k) == Some(b)
    ensures forall k :: BlockAt(t, k).Some? ==> BlockAt(t, k).value in Pages(t)
  {
    forall b | b in Pages(t) ensures exists k :: BlockAt(t, k) == Some(b) {
      var k :| k in t && t[k].block == Some(b);
      assert BlockAt(t, k) == Some(b);
    }
  }

  lemma SamePages(t: Tree, t': Tree)
    requires forall k :: BlockAt(t', k) == BlockAt(t, k)
    ensures Pages(t') == Pages(t)
  {
    PagesAre(t);
    PagesAre(t');
    forall b ensures b in Pages(t) <==> b in Pages(t') {
      if b in Pages(t) {
        var k :| BlockAt(t, k) == Some(b);
        assert BlockAt(t', k) == Some(b);
      }
      if b in Pages(t') {
        var k :| BlockAt(t', k) == Some(b);
        assert BlockAt(t, k) == Some(b);
      }
    }
  }

  function AsSet(ids: seq<int>): set<int> {
    set b | b in ids
  }

  /** Taking one node out takes its page out. */
  lemma PagesWithout(t: Tree, ns: CacheNamespace, identity: Identities, v: Key)
    requires NodesIdentified(t, ns, identity) && v in t
    ensures NodesIdentified(t - {v}, ns, identity)
    ensures Pages(t - {v}) == Pages(t) - (if t[v].block.Some? then {t[v].block.value} else {})
    ensures t[v].block.Some? ==> t[v].block.value in Pages(t)
  {
    assert forall k :: BlockAt(t - {v}, k).Some? ==> BlockAt(t, k) == BlockAt(t - {v}, k);
    forall b | b in Pages(t) && Some(b) != t[v].block ensures b in Pages(t - {v}) {
      var k :| k in t && t[k].block == Some(b);
      assert k in t - {v};
    }
    forall b | b in Pages(t - {v}) ensures Some(b) != t[v].block {
      var k :| k in t - {v} && (t - {v})[k].block == Some(b);
      assert BlockAt(t, k) == Some(b);
      assert t[v].block.Some? ==> BlockAt(t, v) == t[v].block;
    }
  }

  /** What a run has handed back so far: distinct pages that left the tree. */
  ghost predicate Reclaimed(t: Tree, t': Tree, ids: seq<int>) {
    && Distinct(ids)
    && AsSet(ids) <= Pages(t)
    && Pages(t') == Pages(t) - AsSet(ids)
  }

  lemma ReclaimedStep(t: Tree, t': Tree, ids: seq<int>, t'': Tree, b: int)
    requires Reclaimed(t, t', ids) && b in Pages(t') && Pages(t'') == Pages(t') - {b}
    ensures Reclaimed(t, t'', ids + [b])
  {
    assert b !in ids by {
      assert b in ids ==> b in AsSet(ids);
    }
    assert AsSet(ids + [b]) == AsSet(ids) + {b};
  }

  /** Eviction hands back distinct pages, each of which leaves the tree. */
  lemma {:induction false} EvictedPages(t: Tree, ns: CacheNamespace, identity: Identities, victims: seq<Key>)
    requires NodesIdentified(t, ns, identity)
    requires Distinct(victims) && forall v :: v in victims ==> v in t
    ensures Reclaimed(t, Without(t, victims), EvictedIds(t, victims))
    ensures NodesIdentified(Without(t, victims), ns, identity)
    decreases |victims|
  {
    hide NodesIdentified, Reclaimed, Pages;
    if victims == [] {
      assert Without(t, victims) == t;
      assert Reclaimed(t, t, []) by {
        NothingReclaimed(t);
      }
    } else {
      var n := |victims| - 1;
      var earlier, v := victims[..n], victims[n];
      SplitLast(victims);
      EvictedPages(t, ns, identity, earlier);
      WithoutStep(t, earlier, v);
      var t' := Without(t, earlier);
      assert v in t' && t'[v] == t[v];
      PagesWithout(t', ns, identity, v);
      if t[v].block.Some? {
        ReclaimedStep(t, t', EvictedIds(t, earlier), Without(t, victims), t[v].block.value);
      } else {
        assert Pages(t') - {} == Pages(t');
        assert EvictedIds(t, earlier) + [] == EvictedIds(t, earlier);
        ReclaimedSame(t, t', EvictedIds(t, earlier), Without(t, victims));
      }
    }
  }

  lemma NothingReclaimed(t: Tree)
    ensures Reclaimed(t, t, [])
  {
  }

  lemma ReclaimedSame(t: Tree, t': Tree, ids: seq<int>, t'': Tree)
    requires Reclaimed(t, t', ids) && Pages(t'') == Pages(t')
    ensures Reclaimed(t, t'', ids)
  {
  }

  /** Filling a path adds the pages it was missing. */
  lemma {:induction false} FilledPages(t: Tree, ns: CacheNamespace, path: seq<TokenBlock>, f: Filling)
    requires |path| <= |f.blocks|
    ensures Pages(Filled(t, ns, path, f)) == Pages(t) + AsSet(MissingBlocks(t, ns, path, f.blocks))
  {
    hide Filled, MissingBlocks, Pages, BlockAt;
    var t', missing := Filled(t, ns, path, f), MissingBlocks(t, ns, path, f.blocks);
    PagesAre(t);
    PagesAre(t');
    MissingBlocksAre(t, ns, path, f.blocks);
    forall b ensures b in Pages(t') <==> b in Pages(t) || b in missing {
      if b in Pages(t') {
        var k :| BlockAt(t', k) == Some(b);
        FilledAt(t, ns, path, f, k);
        if BlockAt(t, k).None? {
          PathNode(k, ns, path);
          var i := |k.path| - 1;
          assert f.blocks[i] == b && k == Key(ns, path[..i + 1]);
        }
      }
      if b in Pages(t) {
        var k :| BlockAt(t, k) == Some(b);
        FilledAt(t, ns, path, f, k);
      } else if b in missing {
        var i :| 0 <= i < |path| && f.blocks[i] == b && BlockAt(t, Key(ns, path[..i + 1])).None?;
        var k := Key(ns, path[..i + 1]);
        FilledAt(t, ns, path, f, k);
        assert OnPath(k, ns, path);
      }
    }
  }

  /** The pages an insertion maps are distinct when the pages offered are. */
  lemma {:induction false} MissingDistinct(t: Tree, ns: CacheNamespace, path: seq<TokenBlock>, blocks: seq<int>)
    requires |path| <= |blocks| && Distinct(blocks)
    ensures Distinct(MissingBlocks(t, ns, path, blocks))
  {
    if path != [] {
      var n := |path| - 1;
      MissingDistinct(t, ns, path[..n], blocks);
      MissingBlocksAre(t, ns, path[..n], blocks);
      var b := blocks[n];
      assert b !in MissingBlocks(t, ns, path[..n], blocks);
    }
  }

  // ----- what each operation does to the sharing

  lemma SharingShrink(t: Tree, t': Tree, ns: CacheNamespace, identity: Identities)
    requires NodesIdentified(t, ns, identity)
    requires forall k :: BlockAt(t', k).Some? ==> BlockAt(t', k) == BlockAt(t, k)
    ensures NodesIdentified(t', ns, identity)
  {
  }

  ghost predicate Unlisted(allocations: Allocations, b: int) {
    forall r :: r in allocations ==> b !in allocations[r].blockIds
  }

  /** A request takes pages nobody refers to; whatever those pages once held is forgotten. */
  lemma SharingGrant(
    t: Tree, ns: CacheNamespace, blockSize: nat, allocations: Allocations, content: Contents, identity: Identities,
    r: int, base: seq<int>, taken: seq<int>, a: BlockAllocation, c: seq<Token>)
    requires Sharing(t, ns, blockSize, allocations, content, identity)
    requires a.blockIds == base + taken && |c| == a.numTokens
    requires forall b :: b in taken ==> b !in Pages(t) && b !in base && Unlisted(allocations, b)
    requires forall i :: 0 <= i < |base| && base[i] in identity ==> PageIs(c, i, blockSize, identity[base[i]])
    requires forall r', b :: r' in allocations && r' != r && b in base && b in allocations[r'].blockIds ==> b in identity
    ensures Sharing(t, ns, blockSize, allocations[r := a], content[r := c], identity - AsSet(taken))
  {
    var identity' := identity - AsSet(taken);
    var allocations', content' := allocations[r := a], content[r := c];
    PagesAre(t);
    forall k | BlockAt(t, k).Some? ensures BlockAt(t, k).value in identity' {
      var b := BlockAt(t, k).value;
      assert b in Pages(t) && b !in taken;
    }
    forall r', i {:trigger allocations'[r'].blockIds[i]} | r' in allocations' && 0 <= i < |allocations'[r'].blockIds| && allocations'[r'].blockIds[i] in identity'
      ensures PageIs(content'[r'], i, blockSize, identity'[allocations'[r'].blockIds[i]])
    {
      if r' == r {
        var b := a.blockIds[i];
        assert i >= |base| ==> b in taken;
      }
    }
    forall r1, r2, b | r1 in allocations' && r2 in allocations' && r1 != r2 && b in allocations'[r1].blockIds && b in allocations'[r2].blockIds
      ensures b in identity'
    {
      assert b !in taken;
    }
  }

  lemma SharingFree(
    t: Tree, ns: CacheNamespace, blockSize: nat, allocations: Allocations, content: Contents, identity: Identities, r: int)
    requires Sharing(t, ns, blockSize, allocations, content, identity)
    ensures Sharing(t, ns, blockSize, allocations - {r}, content - {r}, identity)
  {
  }

  /** Rolling a request back is sound as long as its published pages stay complete. */
  lemma SharingTruncate(
    t: Tree, ns: CacheNamespace, blockSize: nat, allocations: Allocations, content: Contents, identity: Identities,
    r: int, n: nat)
    requires Sharing(t, ns, blockSize, allocations, content, identity) && blockSize > 0
    requires r in allocations && n <= allocations[r].numTokens
    requires forall i :: 0 <= i < |allocations[r].blockIds| && allocations[r].blockIds[i] in identity ==> i < n / blockSize
    ensures Sharing(t, ns, blockSize, allocations[r := allocations[r].(numTokens := n)], content[r := content[r][..n]], identity)
  {
    var c := content[r];
    assert c == c[..n] + c[n..];
    ChunksExtend(c[..n], c[n..], blockSize);
    forall i | 0 <= i < |allocations[r].blockIds| && allocations[r].blockIds[i] in identity
      ensures PageIs(c[..n], i, blockSize, identity[allocations[r].blockIds[i]])
    {
      assert Chunks(c[..n], blockSize)[..i + 1] == Chunks(c, blockSize)[..|Chunks(c[..n], blockSize)|][..i + 1];
    }
  }

  /** More tokens leave the complete pages of a request what they were. */
  lemma PageIsExtend(c: seq<Token>, more: seq<Token>, i: nat, blockSize: nat, k: Key)
    requires PageIs(c, i, blockSize, k)
    ensures PageIs(c + more, i, blockSize, k)
  {
    ChunksExtend(c, more, blockSize);
    assert Chunks(c, blockSize)[..i + 1] == Chunks(c + more, blockSize)[..|Chunks(c, blockSize)|][..i + 1];
  }

  /** The identities once the missing pages of a path were published. */
  ghost function Published(identity: Identities, t: Tree, ns: CacheNamespace, path: seq<TokenBlock>, blocks: seq<int>): Identities
    requires |path| <= |blocks|
  {
    if path == [] then identity
    else
      var n := |path| - 1;
      var earlier := Published(identity, t, ns, path[..n], blocks);
      if BlockAt(t, Key(ns, path)).None? then earlier[blocks[n] := Key(ns, path)] else earlier
  }

  lemma {:induction false} PublishedAre(identity: Identities, t: Tree, ns: CacheNamespace, path: seq<TokenBlock>, blocks: seq<int>)
    requires |path| <= |blocks| && Distinct(blocks)
    ensures var identity' := Published(identity, t, ns, path, blocks);
            && (forall i :: 0 <= i < |path| && BlockAt(t, Key(ns, path[..i + 1])).None? ==>
                  blocks[i] in identity' && identity'[blocks[i]] == Key(ns, path[..i + 1]))
            && (forall b :: b in identity ==> b in identity')
            && (forall b :: b in identity' && b !in MissingBlocks(t, ns, path, blocks) ==> b in identity && identity'[b] == identity[b])
  {
    if path != [] {
      var n := |path| - 1;
      PublishedAre(identity, t, ns, path[..n], blocks);
      assert path[..n + 1] == path;
      assert forall m :: 0 < m <= n ==> path[..n][..m] == path[..m];
    }
  }

  lemma SharingPublish(
    t: Tree, ns: CacheNamespace, blockSize: nat, allocations: Allocations, content: Contents, identity: Identities,
    r: int, path: seq<TokenBlock>, blocks: seq<int>, t': Tree)
    requires Sharing(t, ns, blockSize, allocations, content, identity) && blockSize > 0
    requires r in allocations && blocks <= allocations[r].blockIds && |path| <= |blocks|
    requires Distinct(allocations[r].blockIds)
    requires |path| <= |content[r]| / blockSize && path == Chunks(content[r], blockSize)[..|path|]
    requires forall k :: BlockAt(t', k).Some? ==>
               || BlockAt(t', k) == BlockAt(t, k)
               || (OnPath(k, ns, path) && BlockAt(t, k).None? && BlockAt(t', k) == Some(blocks[|k.path| - 1]))
    ensures Sharing(t', ns, blockSize, allocations, content, Published(identity, t, ns, path, blocks))
  {
    var identity' := Published(identity, t, ns, path, blocks);
    PublishedAre(identity, t, ns, path, blocks);
    MissingBlocksAre(t, ns, path, blocks);
    // A page published now that already had an identity had this one.
    forall i | 0 <= i < |path| && BlockAt(t, Key(ns, path[..i + 1])).None? && blocks[i] in identity
      ensures identity[blocks[i]] == Key(ns, path[..i + 1])
    {
      assert PageIs(content[r], i, blockSize, identity[allocations[r].blockIds[i]]);
      assert Chunks(content[r], blockSize)[..i + 1] == path[..i + 1];
    }
    forall b | b in identity ensures identity'[b] == identity[b] {
      if b in MissingBlocks(t, ns, path, blocks) {
        var i :| 0 <= i < |path| && blocks[i] == b && BlockAt(t, Key(ns, path[..i + 1])).None?;
      }
    }
    forall b | b in identity' && b !in identity
      ensures exists i {:trigger blocks[i]} :: 0 <= i < |path| && blocks[i] == b && identity'[b] == Key(ns, path[..i + 1])
    {
      var i :| 0 <= i < |path| && blocks[i] == b && BlockAt(t, Key(ns, path[..i + 1])).None?;
    }
    SharingPublishNodes(t, ns, identity, path, blocks, t', identity');
    SharingPublishRequests(blockSize, allocations, content, identity, ns, r, path, blocks, identity');
  }

  lemma SharingPublishNodes(t: Tree, ns: CacheNamespace, identity: Identities, path: seq<TokenBlock>, blocks: seq<int>, t': Tree, identity': Identities)
    requires NodesIdentified(t, ns, identity) && |path| <= |blocks|
    requires forall b :: b in identity ==> b in identity' && identity'[b] == identity[b]
    requires forall i :: 0 <= i < |path| && BlockAt(t, Key(ns, path[..i + 1])).None? ==>
               blocks[i] in identity' && identity'[blocks[i]] == Key(ns, path[..i + 1])
    requires forall b :: b in identity' && b !in identity ==>
               exists i {:trigger blocks[i]} :: 0 <= i < |path| && blocks[i] == b && identity'[b] == Key(ns, path[..i + 1])
    requires forall k :: BlockAt(t', k).Some? ==>
               || BlockAt(t', k) == BlockAt(t, k)
               || (OnPath(k, ns, path) && BlockAt(t, k).None? && BlockAt(t', k) == Some(blocks[|k.path| - 1]))
    ensures NodesIdentified(t', ns, identity')
  {
    forall k | BlockAt(t', k).Some? ensures BlockAt(t', k).value in identity' && identity'[BlockAt(t', k).value] == k {
      var b := BlockAt(t', k).value;
      if BlockAt(t', k) == BlockAt(t, k) {
        assert b in identity && identity[b] == k;
      } else {
        PathNode(k, ns, path);
        var i := |k.path| - 1;
        assert k == Key(ns, path[..i + 1]) && blocks[i] == b;
      }
    }
    forall b | b in identity' ensures identity'[b].ns == ns && identity'[b].path != [] {
      if b !in identity {
        var i :| 0 <= i < |path| && blocks[i] == b && identity'[b] == Key(ns, path[..i + 1]);
      }
    }
  }

  lemma SharingPublishRequests(
    blockSize: nat, allocations: Allocations, content: Contents, identity: Identities,
    ns: CacheNamespace, r: int, path: seq<TokenBlock>, blocks: seq<int>, identity': Identities)
    requires RequestsIdentified(blockSize, allocations, content, identity) && CommonIdentified(allocations, identity)
    requires blockSize > 0 && r in allocations && blocks <= allocations[r].blockIds && |path| <= |blocks|
    requires Distinct(allocations[r].blockIds)
    requires |path| <= |content[r]| / blockSize && path == Chunks(content[r], blockSize)[..|path|]
    requires forall b :: b in identity ==> b in identity' && identity'[b] == identity[b]
    requires forall b :: b in identity' && b !in identity ==>
               exists i {:trigger blocks[i]} :: 0 <= i < |path| && blocks[i] == b && identity'[b] == Key(ns, path[..i + 1])
    ensures RequestsIdentified(blockSize, allocations, content, identity')
    ensures CommonIdentified(allocations, identity')
  {
    forall q, j | q in allocations && 0 <= j < |allocations[q].blockIds| && allocations[q].blockIds[j] in identity'
      ensures PageIs(content[q], j, blockSize, identity'[allocations[q].blockIds[j]])
    {
      var b := allocations[q].blockIds[j];
      if b !in identity {
        var i :| 0 <= i < |path| && blocks[i] == b && identity'[b] == Key(ns, path[..i + 1]);
        assert b == allocations[r].blockIds[i] && b in allocations[r].blockIds && b in allocations[q].blockIds;
        assert q == r && i == j;
        assert path[..i + 1] == Chunks(content[r], blockSize)[..i + 1];
      } else {
        assert PageIs(content[q], j, blockSize, identity[b]);
      }
    }
  }

  // ----- two views of one cell

  /** A request's position on a published page stands for the tokens that page's path spells. */
  lemma IdentityCell(
    t: Tree, ns: CacheNamespace, blockSize: nat, allocations: Allocations, content: Contents, identity: Identities, r: int, p: nat)
    requires Sharing(t, ns, blockSize, allocations, content, identity) && blockSize > 0
    requires r in allocations && p / blockSize < |allocations[r].blockIds|
    requires allocations[r].blockIds[p / blockSize] in identity
    ensures var k := identity[allocations[r].blockIds[p / blockSize]];
            && p < |content[r]|
            && |k.path| == p / blockSize + 1
            && p % blockSize < |k.path[|k.path| - 1]|
            && Upto(k.path, p % blockSize) == content[r][..p + 1]
  {
    var i := p / blockSize;
    var k := identity[allocations[r].blockIds[i]];
    assert PageIs(content[r], i, blockSize, k);
    UptoChunks(content[r], blockSize, p);
  }

  /** Positions of two requests that share a cell stand for the same tokens. */
  lemma SameCell(
    t: Tree, ns: CacheNamespace, blockSize: nat, allocations: Allocations, content: Contents, identity: Identities,
    r: int, p: nat, r': int, p': nat)
    requires Sharing(t, ns, blockSize, allocations, content, identity) && blockSize > 0
    requires r in allocations && p / blockSize < |allocations[r].blockIds| && p < |content[r]|
    requires r' in allocations && p' / blockSize < |allocations[r'].blockIds| && p' < |content[r']|
    requires Distinct(allocations[r].blockIds)
    requires allocations[r].blockIds[p / blockSize] == allocations[r'].blockIds[p' / blockSize] && p % blockSize == p' % blockSize
    ensures content[r][..p + 1] == content[r'][..p' + 1]
  {
    PagePosition(p, blockSize);
    PagePosition(p', blockSize);
    if r != r' {
      var b := allocations[r].blockIds[p / blockSize];
      assert b in allocations[r].blockIds && b in allocations[r'].blockIds;
      assert b in identity;
      IdentityCell(t, ns, blockSize, allocations, content, identity, r, p);
      IdentityCell(t, ns, blockSize, allocations, content, identity, r', p');
    }
  }
}
