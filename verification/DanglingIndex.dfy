/** A refused replacement, after which a prompt can be neither looked up nor stored. */
module DanglingIndex {
  import opened Basics
  import opened PrefixCaching
  import opened RadixTree
  import opened TokenPaths
  import opened HostIndex
  import opened HostCache

  function Zero(ns: string, tokens: seq<Token>): int {
    0
  }

  const SMALL: Payload<int> := Payload([0], 4)

  const LARGE: Payload<int> := Payload([0], 8)

  const FIRST := HostKey("n", [1])

  const SECOND := HostKey("n", [2])

  lemma {:induction false} PinnedOnce(sizes: map<HostKey, nat>, pins: map<HostKey, nat>, order: seq<HostKey>, key: HostKey)
    requires Distinct(order) && key in sizes && forall k :: k in order ==> k in sizes && (k in pins <==> k == key)
    ensures PinnedTotal(sizes, pins, order) == if key in order then sizes[key] else 0
  {
    if order != [] {
      var head := order[0];
      assert head in order;
      assert forall k :: k in order[1..] ==> k in order;
      PinnedOnce(sizes, pins, order[1..], key);
      assert key in order <==> key == head || key in order[1..];
      assert head !in order[1..];
    }
  }

  lemma PinnedIsStored(cache: HostPrefixCache<int>)
    requires cache.Valid()
    ensures cache.PinnedBytes() <= cache.bytes
  {
    UnpinnedExists(cache.sizes, cache.pins, cache.order);
  }

  /** What is pinned, when that is one entry. */
  lemma PinnedIs(cache: HostPrefixCache<int>, key: HostKey)
    requires cache.Valid() && key in cache.entries && forall k :: k in cache.entries ==> (k in cache.pins <==> k == key)
    ensures cache.PinnedBytes() == Bytes(cache.entries[key])
  {
    PinnedOnce(cache.sizes, cache.pins, cache.order, key);
  }

  /** The first prompt's only candidate is its own stale key. */
  lemma OnlyItself(cache: HostPrefixCache<int>)
    requires cache.Valid() && cache.blockSize == 1 && cache.stale == {FIRST} && cache.Listed() == {FIRST, SECOND}
    ensures cache.MustMiss("n", [1])
  {
    hide Chunks, Under;
    var n := cache.Reach("n", [1]);
    assert Times(1, 1) == 1;
    UnderMeansSharing(FIRST, 1, "n", [1], 1);
    UnderMeansSharing(SECOND, 1, "n", [1], 1);
    assert Shares(cache.Listed(), 1, "n", [1], 1);
    assert n == 1;
    forall k | cache.Shortest(k, "n", [1], n) ensures k in cache.stale {
      assert SECOND.tokens[..1] == [2] && [1][..1] == [1];
    }
  }

  /** Two prompts fill the cache, and the second is pinned. */
  method FullCache() returns (cache: HostPrefixCache<int>)
    ensures fresh(cache) && cache.Valid() && cache.maxBytes == 8 && cache.blockSize == 1 && cache.kv == Zero
    ensures cache.stale == {} && cache.entries.Keys == {FIRST, SECOND} && cache.entries[SECOND] == SMALL && cache.pins == map[SECOND := 1]
  {
    hide Stored, Indexed;
    assert SMALL.values[..1] == SMALL.values;
    cache := new HostPrefixCache(8, 1, Zero);
    PinnedIsStored(cache);
    var first := cache.Put("n", [1], SMALL);
    PinnedIsStored(cache);
    var second := cache.Put("n", [2], SMALL);
    ghost var named;
    var looked;
    looked, named := cache.Pin("n", [2]);
  }

  /**
   A larger payload for the first prompt of a full cache is refused after the old one was
   dropped. From then on its lookup raises, the pin of that failed lookup stays, and
   storing it anew reports success and stores nothing.
   */
  method RefusedReplacement() returns (cache: HostPrefixCache<int>, replaced: bool, looked: Result<HostMatch<int>>, again: bool)
    ensures cache.Valid() && FIRST !in cache.entries && cache.stale == {FIRST} && FIRST in cache.pins
    ensures !replaced && looked == Err(KeyError) && again
  {
    hide Stored, Indexed;
    cache := FullCache();
    PinnedIs(cache, SECOND);
    var r := cache.Put("n", [1], LARGE);
    replaced := r.value;
    OnlyItself(cache);
    ghost var named;
    looked, named := cache.Pin("n", [1]);
    r := cache.Put("n", [1], SMALL);
    again := r.value;
  }
}
