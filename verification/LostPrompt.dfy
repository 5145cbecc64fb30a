/**
 A cache of one page under the default policy: the second prompt's page is lost, and the
 cache never takes another.
 */
module LostPrompt {
  import opened Basics
  import opened RadixTree
  import opened PrefixCaching

  function Greater(a: real, b: real): real {
    if a < b then b else a
  }

  /** How fresh an entry is, between zero and one. */
  function Freshness(e: PrefixEntry, now: nat): real {
    1.0 / (1.0 + Max(0, now - e.lastAccess) as real / 1024.0)
  }

  /** The default policy's worth of an entry; the least is evicted first. */
  function Worth(e: PrefixEntry, now: nat): real {
    var reuse, cost := Max(1, e.frequency + e.hits) as real, Greater(Greater(e.recomputeCost, e.prefixTokens as real), 0.000000001);
    reuse * cost * Freshness(e, now) / Max(e.bytesPerBlock, 1) as real
  }

  /** The default policy admits what was seen once and fits the cache. */
  function Admits(c: PrefixCandidate): bool {
    c.frequency >= 1 && (c.capacity.Some? ==> |c.path| <= Max(1, c.capacity.value))
  }

  const DEFAULT := Policy(Admits, Worth)

  /** A node that has no page yet is worth less than any page of a token or more, at one byte per page. */
  lemma BlankIsWorthLess(e: PrefixEntry, blank: PrefixEntry, now: nat)
    requires e.prefixTokens >= 1 && e.bytesPerBlock == 1
    requires blank.prefixTokens == 0 && blank.recomputeCost == 0.0 && blank.frequency == blank.hits == blank.lastAccess == 0
    ensures Worth(blank, now) < Worth(e, now)
  {
    var f, g := Freshness(e, now), Freshness(blank, now);
    FreshnessFalls(Max(0, now - e.lastAccess) as real, now as real);
    var reuse, cost := Max(1, e.frequency + e.hits) as real, Greater(Greater(e.recomputeCost, e.prefixTokens as real), 0.000000001);
    ProductGrows(reuse, cost, f);
    assert Worth(e, now) == reuse * cost * f / 1.0 == reuse * cost * f;
    SizeCounts(blank, now, g);
  }

  lemma SizeCounts(blank: PrefixEntry, now: nat, g: real)
    requires blank.prefixTokens == 0 && blank.recomputeCost == 0.0 && blank.frequency == blank.hits == blank.lastAccess == 0
    requires g == Freshness(blank, now) > 0.0
    ensures Worth(blank, now) < g
  {
    var size := Max(blank.bytesPerBlock, 1) as real;
    assert Worth(blank, now) == 1.0 * 0.000000001 * g / size;
    Divided(0.000000001 * g, size);
  }

  lemma Divided(x: real, size: real)
    requires x > 0.0 && size >= 1.0
    ensures x / size <= x
  {
    var q := x / size;
    assert q * size == x && q * (size - 1.0) >= 0.0;
  }

  lemma ProductGrows(reuse: real, cost: real, f: real)
    requires reuse >= 1.0 && cost >= 1.0 && f > 0.0
    ensures reuse * cost * f >= f
  {
    assert reuse * cost >= cost;
    assert (reuse * cost - 1.0) * f >= 0.0;
  }

  lemma FreshnessFalls(a: real, b: real)
    requires 0.0 <= a <= b
    ensures 1.0 / (1.0 + a / 1024.0) >= 1.0 / (1.0 + b / 1024.0) > 0.0
  {
    var x, y := 1.0 + a / 1024.0, 1.0 + b / 1024.0;
    assert 1.0 <= x <= y;
    assert 1.0 / x - 1.0 / y == (y - x) / (x * y);
  }

  const NS := CacheNamespace("default", "default", "default", "none")

  function NodeOf(token: Token): Key {
    Key(NS, [[token]])
  }

  lemma OneBlock(token: Token, block: int)
    ensures InsertPath([token], [block], 1) == [[token]] && Chunks([token], 1) == [[token]]
  {
    assert Chunk([token], 1, 0) == [token];
  }

  function Offered(token: Token, block: int): Insertion {
    Insertion(NS, [[token]], [block], None, 1)
  }

  /** A cache of one page under the default policy. */
  ghost predicate Tiny(cache: PrefixCache) {
    cache.blockSize == 1 && cache.maxBlocks == Some(1) && cache.policy == DEFAULT && cache.maxFrequencyEntries == 10
  }

  /** The path of one block has one node. */
  lemma OnePath(token: Token)
    ensures PathKeys(NS, [[token]]) == {NodeOf(token)}
    ensures forall k :: OnPath(k, NS, [[token]]) <==> k == NodeOf(token)
  {
    PathKeysAre(NS, [[token]]);
    assert [[token]][..1] == [[token]];
  }

  /** A prompt of one block in a tree without its node. */
  lemma Fresh(t: Tree, token: Token, block: int)
    requires NodeOf(token) !in t
    ensures ExistingDepth(t, NS, [[token]]) == 0 && MissingBlocks(t, NS, [[token]], [block]) == [block]
    ensures Descend(t, NS, [[token]]) == t[NodeOf(token) := BLANK_NODE]
    ensures PrefixCache.Protected(t, Offered(token, block)) == {}
  {
    OnePath(token);
    assert [[token]][..0] == [];
    assert PathKeys(NS, []) == {};
  }

  lemma OnlyAdmitted(cache: PrefixCache, t: Tree, frequency: map<Key, nat>, token: Token, block: int)
    requires Tiny(cache) && NodeOf(token) !in t
    ensures cache.AdmittedOf(t, frequency, Offered(token, block)) == 1
    ensures cache.Quota(t, |Cached(t)|, Offered(token, block), 1) == |Cached(t)|
  {
    Fresh(t, token, block);
    assert [[token]][..1] == [[token]];
  }

  lemma FirstIsIn(cache: PrefixCache, frequency: map<Key, nat>, now: nat, run: InsertRun, m: PrefixMatch)
    requires Tiny(cache) && cache.InsertOutcome(map[], frequency, now, 0, Offered(10, 0), run, m)
    ensures run.Admitted? && !run.rootDropped && 0 < run.blocks <= 1 && m.insertedBlockIds == [0]
    ensures var t := cache.Inserted(map[], frequency, now, Offered(10, 0), run);
            t.Keys == {NodeOf(10)} && Paged(t[NodeOf(10)])
  {
    hide EvictedIds, Reclaimable;
    var ins, t: Tree := Offered(10, 0), map[];
    OnlyAdmitted(cache, t, frequency, 10, 0);
    Fresh(t, 10, 0);
    OnePath(10);
    assert Cached(t) == {};
    assert run.quota == 0 && run.victims == [];
    var grown := Descend(t, NS, [[10]]);
    assert Without(grown, []) == grown;
    assert NodeOf(10) in grown;
    assert [[10]][..1] == [[10]];
  }

  /** A page of one token at one byte that nobody holds. */
  predicate Paged(n: Node) {
    n.block == Some(0) && n.prefixTokens == 1 && n.bytesPerBlock == 1 && n.references == 0
  }

  /** The blank node of the second prompt is evicted before the first prompt's page, which is evicted too. */
  lemma BothGo(t: Tree, now: nat, victims: seq<Key>)
    requires t.Keys == {NodeOf(10), NodeOf(20)} && Paged(t[NodeOf(10)]) && t[NodeOf(20)] == BLANK_NODE
    requires EvictTurns(t, {}, DEFAULT, now, 1, victims) && |EvictedIds(t, victims)| == 1
    ensures Without(t, victims) == map[]
  {
    var n := |victims| - 1;
    var earlier, v := victims[..n], victims[n];
    SplitLast(victims);
    var left := Without(t, earlier);
    assert v in left && v in t;
    assert NodeOf(20) != NodeOf(10) by {
      assert [20][0] != [10][0];
      assert [[20]][0] != [[10]][0];
    }
    assert v == NodeOf(10);
    if NodeOf(20) !in earlier {
      var blank := NodeOf(20);
      assert blank in left && Leaf(left, blank);
      assert blank in Candidates(left, {});
      BlankIsWorthLess(Entry(v, left[v]), Entry(blank, left[blank]), now + n);
      assert false;
    }
  }

  lemma SecondIsLost(cache: PrefixCache, t: Tree, frequency: map<Key, nat>, now: nat, run: InsertRun, m: PrefixMatch)
    requires Tiny(cache) && WellFormed(t) && t.Keys == {NodeOf(10)} && Paged(t[NodeOf(10)])
    requires cache.InsertOutcome(t, frequency, now, 1, Offered(20, 1), run, m)
    ensures run.Admitted? && run.rootDropped && 0 < run.blocks <= 1 && m.admitted && m.insertedBlockIds == [1]
    ensures cache.Inserted(t, frequency, now, Offered(20, 1), run) == map[]
  {
    hide EvictedIds, EvictTurns, ExistingDepth, MissingBlocks, WellFormed, Candidates, PathKeys, PrefixCache.AdmittedOf, PrefixCache.Quota;
    assert NodeOf(20) !in t by {
      assert [20][0] != [10][0];
      assert [[20]][0] != [[10]][0];
    }
    OnlyAdmitted(cache, t, frequency, 20, 1);
    Fresh(t, 20, 1);
    assert Cached(t) == {NodeOf(10)};
    var grown := Descend(t, NS, [[20]]);
    DescendKeeps(t, NS, [[20]]);
    OnePageCounts(grown);
    hide Reclaimable, Cached, Descend;
    EvictionIsExact(grown, {}, DEFAULT, now, 1, run.victims);
    BothGo(grown, now, run.victims);
    assert [1][..1] == [1];
  }

  /** One page in the tree, or one lost, is what the cache counts. */
  lemma OneCounted(cache: PrefixCache)
    requires cache.Valid()
    requires (cache.lost == [] && cache.nodes.Keys == {NodeOf(10)} && Paged(cache.nodes[NodeOf(10)])) || (cache.lost == [1] && cache.nodes == map[])
    ensures cache.cachedBlocks == 1 && WellFormed(cache.nodes)
  {
    if cache.lost == [] {
      assert Cached(cache.nodes) == {NodeOf(10)};
    } else {
      assert Cached(cache.nodes) == {};
    }
  }

  lemma OnePageCounts(t: Tree)
    requires NodeOf(10) in t && t[NodeOf(10)].block.Some? && forall k :: k in t ==> t[k].references == 0
    ensures |Reclaimable(t, {})| >= 1
  {
    Smaller({NodeOf(10)}, Reclaimable(t, {}));
  }

  lemma ThirdIsRefused(cache: PrefixCache, frequency: map<Key, nat>, now: nat, run: InsertRun, m: PrefixMatch)
    requires Tiny(cache) && cache.InsertOutcome(map[], frequency, now, 1, Offered(30, 2), run, m)
    ensures !m.admitted
  {
    var t: Tree := map[];
    OnlyAdmitted(cache, t, frequency, 30, 2);
    Fresh(t, 30, 2);
    assert Cached(t) == {};
    assert Reclaimable(Descend(t, NS, [[30]]), {}) == {};
  }

  /**
   The second prompt's insertion succeeds and reports its page as inserted, yet the prompt
   is not found and the page stays counted: from then on the cache refuses every prompt.
   */
  method SecondPromptIsLost() returns (cache: PrefixCache, second: PrefixMatch, found: PrefixMatch, third: PrefixMatch)
    ensures cache.Valid() && cache.maxBlocks == Some(1) && cache.lost == [1] && cache.cachedBlocks == 1
    ensures second.admitted && second.insertedBlockIds == [1]
    ensures found.matchedTokens == 0 && !third.admitted
  {
    hide WellFormed, Leased, Blocky, PrefixCache.InsertOutcome, PrefixCache.Inserted, Chunks, InsertPath, MatchDepth, Touched, Adjusted;
    cache := new PrefixCache(1, Some(1), DEFAULT, 10);
    OneBlock(10, 0);
    OneBlock(20, 1);
    OneBlock(30, 2);
    ghost var frequency, now, run;
    frequency, now := cache.frequency, cache.clock;
    var r;
    r, run := cache.Insert([10], [0], NS, None, 1);
    FirstIsIn(cache, frequency, now, run, r.value);
    assert cache.lost == [];
    OneCounted(cache);
    ghost var t := cache.nodes;
    frequency, now := cache.frequency, cache.clock;
    r, run := cache.Insert([20], [1], NS, None, 1);
    second := r.value;
    SecondIsLost(cache, t, frequency, now, run, second);
    assert cache.lost == [1];
    OneCounted(cache);
    now := cache.clock;
    found := cache.Match([20], NS, false, 0);
    EmptyPath(map[], NS, 1, now);
    assert [[20]][..0] == [];
    assert cache.nodes == map[];
    frequency, now := cache.frequency, cache.clock;
    r, run := cache.Insert([30], [2], NS, None, 1);
    third := r.value;
    ThirdIsRefused(cache, frequency, now, run, third);
  }
}
