/**
 What the admission policy is shown, and what a policy that only counts sightings makes
 of it: it admits exactly the part of a prompt that an earlier prompt left in the tree.
 */
module Doorkeeper {
  import opened Basics
  import opened RadixTree
  import opened PrefixCaching

  /**
   The sightings an insertion offers for the part of its path that is already in the
   tree, or for the whole path if none is: one more than were recorded for it. The first
   recording of a shared part counts twice, since its nodes prove an earlier sighting.
   */
  ghost predicate Offers(t: Tree, frequency: map<Key, nat>, ins: Insertion, shared: nat, offered: nat) {
    && shared <= |ins.path|
    && (forall i :: 0 < i <= |ins.path| ==> (Key(ins.ns, ins.path[..i]) in t <==> i <= shared))
    && var key := Key(ins.ns, if shared > 0 then ins.path[..shared] else ins.path);
       offered == if key in frequency then frequency[key] + 1 else if shared > 0 then 2 else 1
  }

  /** So a part that is in the tree is never offered as seen once. */
  lemma SharedIsSeenTwice(t: Tree, frequency: map<Key, nat>, ins: Insertion, shared: nat, offered: nat)
    requires Positive(frequency) && Offers(t, frequency, ins, shared, offered)
    ensures shared > 0 ==> offered >= 2
  {
  }

  lemma SharedPart(t: Tree, frequency: map<Key, nat>, ins: Insertion, shared: nat, offered: nat)
    requires WellFormed(t) && Offers(t, frequency, ins, shared, offered)
    ensures shared == ExistingDepth(t, ins.ns, ins.path)
  {
    var depth := ExistingDepth(t, ins.ns, ins.path);
    if depth > 0 {
      assert Key(ins.ns, ins.path[..depth]) in t;
    }
    if shared > 0 {
      assert Key(ins.ns, ins.path[..shared]) in t;
    }
  }

  /** The policy is asked about the first `n` blocks, said to be seen `frequency` times. */
  ghost predicate Admits(cache: PrefixCache, ins: Insertion, n: nat, frequency: nat)
    requires n <= |ins.path|
  {
    cache.policy.admit(PrefixCandidate(
      ins.ns, ins.path[..n], frequency,
      if ins.recomputeCost.Some? then ins.recomputeCost.value else (n * cache.blockSize) as real,
      ins.bytesPerBlock, cache.maxBlocks))
  }

  /**
   Whatever the policy, it decides on the whole path first, which it is told was seen
   once unless all of it is shared, and then on the shared part with the sightings it is
   offered with. The longer part it admits goes in if there is room, and nothing else.
   */
  lemma DecidedByOffers(
    cache: PrefixCache, t: Tree, frequency: map<Key, nat>, now: nat, cached: nat, ins: Insertion, run: InsertRun, m: PrefixMatch,
    shared: nat, offered: nat)
    requires cache.blockSize > 0 && 0 < |ins.path| <= |ins.blocks| && WellFormed(t)
    requires Offers(t, frequency, ins, shared, offered)
    requires cache.InsertOutcome(t, frequency, now, cached, ins, run, m)
    ensures var full := Admits(cache, ins, |ins.path|, if shared == |ins.path| then offered else 1);
            var part := shared > 0 && Admits(cache, ins, shared, offered);
            var n := if full then |ins.path| else shared;
            && (run.Admitted? <==>
                  && (full || part)
                  && cache.Quota(t, cached, ins, n) <= |Reclaimable(Descend(t, ins.ns, ins.path), PathKeys(ins.ns, ins.path[..shared]))|)
            && (run.Admitted? ==> run.blocks == n && m.admitted && m.matchedTokens == n * cache.blockSize)
            && (run.Rejected? ==> !m.admitted && m.matchedTokens == 0)
  {
    hide Reclaimable, Descend, PrefixCache.Quota, EvictRun, WellFormed;
    SharedPart(t, frequency, ins, shared, offered);
    assert ins.path[..|ins.path|] == ins.path;
    assert cache.Sightings(t, frequency, ins) == offered;
  }

  lemma NoQuota(cache: PrefixCache, t: Tree, cached: nat, ins: Insertion, n: nat)
    requires cache.maxBlocks.None? && n <= |ins.path| <= |ins.blocks|
    ensures cache.Quota(t, cached, ins, n) == 0
  {
  }

  /** The policy admits exactly what was seen at least `k` times. */
  ghost predicate CountsSightings(policy: Policy, k: nat) {
    forall c :: policy.admit(c) <==> c.frequency >= k
  }

  /**
   Behind a doorkeeper that wants two sightings or more an insertion is admitted up to
   the part it shares with earlier prompts, and no further, exactly if that part is not
   empty, was seen often enough and has room. Two sightings it always has.
   */
  lemma OnlySharedIsAdmitted(
    cache: PrefixCache, t: Tree, frequency: map<Key, nat>, now: nat, cached: nat, ins: Insertion, run: InsertRun, m: PrefixMatch,
    shared: nat, offered: nat, k: nat)
    requires cache.blockSize > 0 && 0 < |ins.path| <= |ins.blocks| && WellFormed(t) && Positive(frequency)
    requires Offers(t, frequency, ins, shared, offered)
    requires cache.InsertOutcome(t, frequency, now, cached, ins, run, m)
    requires CountsSightings(cache.policy, k) && k >= 2
    ensures run.Admitted? <==>
              && shared > 0 && (k == 2 || offered >= k)
              && cache.Quota(t, cached, ins, shared) <= |Reclaimable(Descend(t, ins.ns, ins.path), PathKeys(ins.ns, ins.path[..shared]))|
    ensures run.Admitted? ==> run.blocks == shared && m.admitted && m.matchedTokens == shared * cache.blockSize
    ensures run.Rejected? ==> !m.admitted && m.matchedTokens == 0
  {
    hide Reclaimable, Descend, PrefixCache.Quota, EvictRun, WellFormed, PrefixCache.InsertOutcome;
    SharedIsSeenTwice(t, frequency, ins, shared, offered);
    DecidedByOffers(cache, t, frequency, now, cached, ins, run, m, shared, offered);
  }

  // ----- what an admitted path records

  /** A node's share of a cost that is spread evenly over `n` nodes: given, or a unit per token. */
  ghost predicate CostsItsShare(cost: real, i: nat, n: nat, given: Option<real>, blockSize: nat) {
    if given.Some? then cost * n as real == given.value * (i + 1) as real else cost == ((i + 1) * blockSize) as real
  }

  /** A node as the `i`-th of `n` that an insertion passes leaves it. */
  ghost predicate Records(was: Node, now: Node, ins: Insertion, i: nat, offered: nat, clock: nat, n: nat, blockSize: nat)
    requires i < |ins.blocks|
  {
    && now.block == (if was.block.Some? then was.block else Some(ins.blocks[i]))
    && now.references == was.references && now.hits == was.hits
    && now.frequency == Max(was.frequency, offered)
    && now.lastAccess == clock
    && now.prefixTokens == (i + 1) * blockSize
    && now.bytesPerBlock == ins.bytesPerBlock
    && CostsItsShare(now.recomputeCost, i, n, ins.recomputeCost, blockSize)
  }

  lemma NodeRecords(was: Node, ins: Insertion, i: nat, offered: nat, clock: nat, n: nat, blockSize: nat, cost: real)
    requires i < |ins.blocks| && n > 0
    requires cost == (if ins.recomputeCost.Some? then ins.recomputeCost.value else (n * blockSize) as real) / n as real
    ensures Records(was, FillNode(was, ins.blocks[i], i + 1, clock, offered, blockSize, cost, ins.bytesPerBlock), ins, i, offered, clock, n, blockSize)
  {
    SpreadCost(ins.recomputeCost, n, i, blockSize, cost);
    hide CostsItsShare;
  }

  /**
   Every node an admitted insertion passes knows how many tokens lead to it, its share of
   the cost of recomputing them, and the most sightings it was offered with; it was last
   used in the order of the walk, and keeps its page, its hits and its holders.
   */
  lemma AdmittedNode(
    cache: PrefixCache, t: Tree, frequency: map<Key, nat>, now: nat, cached: nat, ins: Insertion, run: InsertRun, m: PrefixMatch,
    shared: nat, offered: nat, i: nat)
    requires cache.blockSize > 0 && 0 < |ins.path| <= |ins.blocks| && WellFormed(t)
    requires Offers(t, frequency, ins, shared, offered)
    requires cache.InsertOutcome(t, frequency, now, cached, ins, run, m) && run.Admitted? && !run.rootDropped && i < run.blocks
    ensures var k, t' := Key(ins.ns, ins.path[..i + 1]), cache.Inserted(t, frequency, now, ins, run);
            && k in t' && (i < shared ==> k in t)
            && Records(if i < shared then t[k] else BLANK_NODE, t'[k], ins, i, offered, now + |run.victims| + i, run.blocks, cache.blockSize)
  {
    hide Reclaimable, EvictRun, EvictedIds, MissingBlocks, CostsItsShare, Filled, Without, Descend, WellFormed, PathKeys, ExistingDepth,
         PrefixCache.AdmittedOf, PrefixCache.Quota, PrefixCache.FillingOf, FillNode, Records;
    SharedPart(t, frequency, ins, shared, offered);
    assert cache.Sightings(t, frequency, ins) == offered;
    var grown := Descend(t, ins.ns, ins.path);
    SparedOrBlank(t, ins, shared, cache.policy, now, run.quota, run.victims, i);
    var f := cache.FillingOf(ins, run.blocks, offered, now + |run.victims|);
    FillingIs(cache, ins, run.blocks, offered, now + |run.victims|);
    FilledNode(Without(grown, run.victims), ins, run.blocks, f, i, if i < shared then t[Key(ins.ns, ins.path[..i + 1])] else BLANK_NODE);
    NodeRecords(if i < shared then t[Key(ins.ns, ins.path[..i + 1])] else BLANK_NODE, ins, i, offered, now + |run.victims| + i,
                run.blocks, cache.blockSize, f.costPerBlock);
  }

  lemma FillingIs(cache: PrefixCache, ins: Insertion, n: nat, offered: nat, now: nat)
    requires 0 < n <= |ins.path|
    ensures var f := cache.FillingOf(ins, n, offered, now);
            && f.blocks == ins.blocks && f.now == now && f.frequency == offered && f.blockSize == cache.blockSize
            && f.bytesPerBlock == ins.bytesPerBlock
            && f.costPerBlock == (if ins.recomputeCost.Some? then ins.recomputeCost.value else (n * cache.blockSize) as real) / n as real
  {
  }

  /** The eviction of an insertion leaves the nodes its path shares; the others are new or were created again. */
  lemma SparedOrBlank(t: Tree, ins: Insertion, shared: nat, policy: Policy, now: nat, quota: nat, victims: seq<Key>, i: nat)
    requires WellFormed(t) && shared == ExistingDepth(t, ins.ns, ins.path) && i < |ins.path|
    requires EvictRun(Descend(t, ins.ns, ins.path), PathKeys(ins.ns, ins.path[..shared]), policy, now, quota, victims)
    ensures var k, left := Key(ins.ns, ins.path[..i + 1]), Without(Descend(t, ins.ns, ins.path), victims);
            && (i < shared ==> k in t && k in left && left[k] == t[k])
            && (i >= shared && k in left ==> left[k] == BLANK_NODE)
  {
    hide EvictRun, Without, Descend, PathKeys, WellFormed;
    var k, grown, protected := Key(ins.ns, ins.path[..i + 1]), Descend(t, ins.ns, ins.path), PathKeys(ins.ns, ins.path[..shared]);
    DescendKeeps(t, ins.ns, ins.path);
    EvictionIsExact(grown, protected, policy, now, quota, victims);
    LeftIs(t, ins, victims, k);
    if i < shared {
      ExistingPrefix(t, ins.ns, ins.path, i + 1);
      SharedIsProtected(ins, shared, i);
      assert Below(k, k);
      assert k !in victims;
    }
  }

  lemma SharedIsProtected(ins: Insertion, shared: nat, i: nat)
    requires i < shared <= |ins.path|
    ensures Key(ins.ns, ins.path[..i + 1]) in PathKeys(ins.ns, ins.path[..shared])
  {
    assert ins.path[..shared][..i + 1] == ins.path[..i + 1];
  }

  lemma LeftIs(t: Tree, ins: Insertion, victims: seq<Key>, k: Key)
    ensures var grown, left := Descend(t, ins.ns, ins.path), Without(Descend(t, ins.ns, ins.path), victims);
            && (k in left ==> left[k] == if k in t then t[k] else BLANK_NODE)
            && (k in t ==> k in grown && grown[k] == t[k])
            && (k in t && k !in victims ==> k in left)
  {
  }

  lemma FilledNode(t: Tree, ins: Insertion, n: nat, f: Filling, i: nat, was: Node)
    requires i < n <= |ins.path| <= |ins.blocks| && f.blocks == ins.blocks
    requires var k := Key(ins.ns, ins.path[..i + 1]); if k in t then t[k] == was else was == BLANK_NODE
    ensures var k, t' := Key(ins.ns, ins.path[..i + 1]), Filled(t, ins.ns, ins.path[..n], f);
            && k in t'
            && t'[k] == FillNode(was, ins.blocks[i], i + 1, f.now + i, f.frequency, f.blockSize, f.costPerBlock, f.bytesPerBlock)
  {
    hide FillNode;
    var k := Key(ins.ns, ins.path[..i + 1]);
    assert ins.path[..n][..i + 1] == ins.path[..i + 1];
    FilledOnPath(t, ins.ns, ins.path[..n], f, k, was);
    hide Filled, OnPath;
  }

  lemma FilledOnPath(t: Tree, ns: CacheNamespace, path: seq<TokenBlock>, f: Filling, k: Key, was: Node)
    requires |path| <= |f.blocks| && OnPath(k, ns, path) && if k in t then t[k] == was else was == BLANK_NODE
    ensures k in Filled(t, ns, path, f)
    ensures Filled(t, ns, path, f)[k] ==
            FillNode(was, f.blocks[|k.path| - 1], |k.path|, f.now + |k.path| - 1, f.frequency, f.blockSize, f.costPerBlock, f.bytesPerBlock)
  {
    hide FillNode;
    PathKeysAre(ns, path);
  }

  lemma SpreadCost(given: Option<real>, n: nat, i: nat, blockSize: nat, cost: real)
    requires n > 0 && cost == (if given.Some? then given.value else (n * blockSize) as real) / n as real
    ensures CostsItsShare(cost * (i + 1) as real, i, n, given, blockSize)
  {
    var c := if given.Some? then given.value else (n * blockSize) as real;
    assert cost * n as real == c;
    if given.Some? {
      assert cost * (i + 1) as real * n as real == cost * n as real * (i + 1) as real;
    } else {
      SameFactor(cost, blockSize as real, n as real);
    }
  }

  lemma SameFactor(x: real, y: real, n: real)
    requires n > 0.0 && x * n == y * n
    ensures x == y
  {
    assert (x - y) * n == 0.0;
  }

  // ----- a prefix seen twice

  const NS := CacheNamespace("default", "default", "default", "none")

  /** The policy that wants two sightings, whatever it evicts by. */
  const TWICE := Policy((c: PrefixCandidate) => c.frequency >= 2, (e: PrefixEntry, now: nat) => 0.0)

  lemma TwoBlocks(a: Token, b: Token, c: Token, d: Token, blocks: seq<int>)
    requires |blocks| == 2
    ensures InsertPath([a, b, c, d], blocks, 2) == [[a, b], [c, d]]
  {
    var tokens := [a, b, c, d];
    assert Chunk(tokens, 2, 0) == [a, b] && Chunk(tokens, 2, 1) == [c, d];
  }

  lemma PathOfTwo(b: TokenBlock, c: TokenBlock)
    ensures PathKeys(NS, [b, c]) == {Key(NS, [b]), Key(NS, [b, c])}
    ensures [b, c][..0] == [] && [b, c][..1] == [b] && [b, c][..2] == [b, c]
  {
    assert [b, c][..1] == [b] && [b, c][..2] == [b, c];
    forall k ensures k in PathKeys(NS, [b, c]) <==> k == Key(NS, [b]) || k == Key(NS, [b, c]) {
      if k == Key(NS, [b]) {
        assert k == Key(NS, [b, c][..1]);
      }
      if k == Key(NS, [b, c]) {
        assert k == Key(NS, [b, c][..2]);
      }
    }
  }

  const SHARED := Key(NS, [[1, 2]])
  const FIRST := Key(NS, [[1, 2], [3, 4]])
  const SECOND := Key(NS, [[1, 2], [5, 6]])

  lemma ThreeNodes()
    ensures SHARED != FIRST && SHARED != SECOND && FIRST != SECOND
    ensures PathKeys(NS, FIRST.path) == {SHARED, FIRST} && PathKeys(NS, SECOND.path) == {SHARED, SECOND}
    ensures FIRST.path[..1] == SECOND.path[..1] == SHARED.path && FIRST.path[..0] == SECOND.path[..0] == []
    ensures FIRST.path[..2] == FIRST.path && SECOND.path[..2] == SECOND.path && SHARED.path[..1] == SHARED.path
  {
    PathOfTwo([1, 2], [3, 4]);
    PathOfTwo([1, 2], [5, 6]);
    assert |SHARED.path| == 1 && |FIRST.path| == |SECOND.path| == 2;
    assert FIRST.path[1][0] == 3 && SECOND.path[1][0] == 5;
  }

  lemma FirstOffer()
    ensures Offers(map[], map[], Insertion(NS, FIRST.path, [10, 11], None, 1), 0, 1)
  {
  }

  /** The refused prompt leaves two nodes without pages, and its whole path recorded once. */
  lemma FirstLeavesItsPath(cache: PrefixCache, t: Tree, frequency: map<Key, nat>)
    requires cache.blockSize == 2 && cache.policy == TWICE && cache.maxFrequencyEntries == 10 && cache.maxBlocks == None
    requires var ins := Insertion(NS, FIRST.path, [10, 11], None, 1);
             && cache.PrunedByPolicy(map[], map[], ins, t)
             && Recorded(map[], frequency, PrefixCache.FrequencyKey(map[], ins), 10)
    ensures t.Keys == {SHARED, FIRST} && t[SHARED].block.None? && t[FIRST].block.None?
    ensures Offers(t, frequency, Insertion(NS, SECOND.path, [10, 12], None, 1), 1, 2)
  {
    var ins, none: Tree := Insertion(NS, FIRST.path, [10, 11], None, 1), map[];
    FirstIsRefused(cache);
    ThreeNodes();
    FirstOffer();
    SharedPart(none, map[], ins, 0, 1);
    FirstPath();
    TwoBlanks(Descend(none, NS, FIRST.path), t);
    assert frequency == map[FIRST := 1];
    hide PrefixCache.PrunedByPolicy, Recorded, Descend, PrefixCache.FrequencyKey;
    assert SHARED !in frequency;
  }

  lemma FirstIsRefused(cache: PrefixCache)
    requires cache.blockSize == 2 && cache.policy == TWICE
    ensures cache.AdmittedOf(map[], map[], Insertion(NS, FIRST.path, [10, 11], None, 1)) == 0
  {
    FirstOffer();
    SharedPart(map[], map[], Insertion(NS, FIRST.path, [10, 11], None, 1), 0, 1);
  }

  lemma FirstPath()
    ensures var grown := Descend(map[], NS, FIRST.path);
            grown.Keys == {SHARED, FIRST} && grown[SHARED] == grown[FIRST] == BLANK_NODE
  {
    ThreeNodes();
    hide PathKeys;
    assert Descend(map[], NS, FIRST.path).Keys == PathKeys(NS, FIRST.path);
  }

  /** Two page-less nodes are within the budget. */
  lemma TwoBlanks(grown: Tree, t: Tree)
    requires grown.Keys == {SHARED, FIRST} && grown[SHARED] == grown[FIRST] == BLANK_NODE
    requires PrunedTo(grown, t, 10)
    ensures t.Keys == {SHARED, FIRST} && t[SHARED].block.None? && t[FIRST].block.None?
  {
    hide PagelessLeaves, Leaf;
    FewPageless(grown);
    hide PagelessNodes;
    assert |grown.Keys - t.Keys| == 0;
    assert grown.Keys - t.Keys == {};
  }

  lemma FewPageless(t: Tree)
    ensures |PagelessNodes(t)| <= |t.Keys|
  {
    Smaller(PagelessNodes(t), t.Keys);
  }

  lemma SharedGoesIn(cache: PrefixCache, t: Tree, frequency: map<Key, nat>, now: nat, cached: nat, run: InsertRun, m: PrefixMatch)
    requires cache.blockSize == 2 && cache.maxBlocks == None && WellFormed(t)
    requires t.Keys == {SHARED, FIRST} && t[SHARED].block.None? && t[FIRST].block.None?
    requires var ins := Insertion(NS, SECOND.path, [10, 12], None, 1);
             && Offers(t, frequency, ins, 1, 2)
             && cache.InsertOutcome(t, frequency, now, cached, ins, run, m) && run.Admitted? && run.blocks == 1
    ensures m.blockIds == [10] && m.insertedBlockIds == [10]
    ensures BlockAt(cache.Inserted(t, frequency, now, Insertion(NS, SECOND.path, [10, 12], None, 1), run), SHARED) == Some(10)
  {
    hide Reclaimable, EvictRun;
    var ins := Insertion(NS, SECOND.path, [10, 12], None, 1);
    ThreeNodes();
    NoQuota(cache, t, cached, ins, 1);
    var grown := Descend(t, NS, SECOND.path);
    NothingEvictedForNothing(grown, PrefixCache.Protected(t, ins), cache.policy, now, run.victims);
    assert Without(grown, []) == grown;
    assert SHARED in grown;
    assert MissingBlocks(t, NS, SHARED.path, [10, 12]) == [10];
    assert [10, 12][..1] == [10];
  }

  lemma NothingEvictedForNothing(t: Tree, protected: set<Key>, policy: Policy, now: nat, victims: seq<Key>)
    requires EvictRun(t, protected, policy, now, 0, victims)
    ensures victims == []
  {
  }

  /**
   The first of two prompts that start alike is refused and leaves its path behind; the
   second is admitted up to the block they share.
   */
  method SecondSightingIsAdmitted() returns (cache: PrefixCache, first: PrefixMatch, second: PrefixMatch)
    ensures cache.Valid() && cache.policy == TWICE
    ensures !first.admitted && first.matchedTokens == 0
    ensures second.admitted && second.matchedTokens == 2 && second.blockIds == [10] && second.insertedBlockIds == [10]
    ensures BlockAt(cache.nodes, Key(NS, [[1, 2]])) == Some(10)
  {
    hide WellFormed, Leased, Blocky, PrefixCache.InsertOutcome, PrefixCache.Inserted, InsertPath, Recorded, PrefixCache.PrunedByPolicy,
         Descend, Offers, MissingBlocks, Reclaimable, PrefixCache.Quota, PrefixCache.FrequencyKey;
    cache := new PrefixCache(2, None, TWICE, 10);
    TwoBlocks(1, 2, 3, 4, [10, 11]);
    TwoBlocks(1, 2, 5, 6, [10, 12]);
    FirstOffer();
    ghost var ins, frequency, now, run;
    ins, now := Insertion(NS, FIRST.path, [10, 11], None, 1), cache.clock;
    var r;
    r, run := cache.Insert([1, 2, 3, 4], [10, 11], NS, None, 1);
    first := r.value;
    OnlySharedIsAdmitted(cache, map[], map[], now, 0, ins, run, first, 0, 1, 2);
    FirstLeavesItsPath(cache, cache.nodes, cache.frequency);
    ghost var t, cached := cache.nodes, cache.cachedBlocks;
    ins, frequency, now := Insertion(NS, SECOND.path, [10, 12], None, 1), cache.frequency, cache.clock;
    r, run := cache.Insert([1, 2, 5, 6], [10, 12], NS, None, 1);
    second := r.value;
    OnlySharedIsAdmitted(cache, t, frequency, now, cached, ins, run, second, 1, 2, 2);
    NoQuota(cache, t, cached, ins, 1);
    SharedGoesIn(cache, t, frequency, now, cached, run, second);
  }
}
