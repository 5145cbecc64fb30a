/**
 The host-resident second-level cache: whole prompts' keys and values, bounded in bytes,
 evicted least recently used first, and found again by any block-aligned prefix.
 */
module HostCache {
  import opened Basics
  import opened RadixTree
  import opened PrefixCaching
  import opened HostIndex

  /** One value per token of a prompt, and what one of them occupies. */
  datatype Payload<V> = Payload(values: seq<V>, bytesPerToken: nat)

  function Bytes<V>(p: Payload<V>): nat {
    |p.values| * p.bytesPerToken
  }

  datatype HostMatch<V> = HostMatch(matchedTokens: nat, payload: Option<seq<V>>, entryKey: Option<HostKey>)

  // ----- sums over the entries

  function Total(sizes: map<HostKey, nat>, order: seq<HostKey>): nat
    requires forall k :: k in order ==> k in sizes
  {
    if order == [] then 0
    else
      var k := order[0];
      assert k in order;
      sizes[k] + Total(sizes, order[1..])
  }

  function PinnedTotal(sizes: map<HostKey, nat>, pins: map<HostKey, nat>, order: seq<HostKey>): nat
    requires forall k :: k in order ==> k in sizes
  {
    if order == [] then 0
    else
      var k := order[0];
      assert k in order;
      (if k in pins then sizes[k] else 0) + PinnedTotal(sizes, pins, order[1..])
  }

  /** Takes the `i`-th key out. */
  function Out(order: seq<HostKey>, i: nat): (rest: seq<HostKey>)
    requires i < |order|
    ensures forall k :: k in rest ==> k in order
    ensures forall k :: k in order ==> k == order[i] || k in rest
  {
    assert order == order[..i] + [order[i]] + order[i + 1..];
    order[..i] + order[i + 1..]
  }

  lemma {:induction false} TotalOut(sizes: map<HostKey, nat>, pins: map<HostKey, nat>, order: seq<HostKey>, i: nat)
    requires i < |order| && forall k :: k in order ==> k in sizes
    ensures order[i] in order
    ensures Total(sizes, order) == sizes[order[i]] + Total(sizes, Out(order, i))
    ensures PinnedTotal(sizes, pins, order) == (if order[i] in pins then sizes[order[i]] else 0) + PinnedTotal(sizes, pins, Out(order, i))
    decreases i
  {
    var head := order[0];
    assert head in order;
    if i == 0 {
      assert Out(order, 0) == order[1..];
    } else {
      TotalOut(sizes, pins, order[1..], i - 1);
      var rest := Out(order, i);
      assert rest[0] == head && rest[1..] == Out(order[1..], i - 1);
      assert order[1..][i - 1] == order[i];
    }
  }

  lemma {:induction false} TotalAppend(sizes: map<HostKey, nat>, pins: map<HostKey, nat>, order: seq<HostKey>, key: HostKey)
    requires key in sizes && forall k :: k in order ==> k in sizes
    ensures Total(sizes, order + [key]) == Total(sizes, order) + sizes[key]
    ensures PinnedTotal(sizes, pins, order + [key]) == PinnedTotal(sizes, pins, order) + if key in pins then sizes[key] else 0
  {
    if order == [] {
      assert order + [key] == [key];
      assert [key][1..] == [];
    } else {
      var head := order[0];
      assert head in order;
      assert (order + [key])[1..] == order[1..] + [key];
      TotalAppend(sizes, pins, order[1..], key);
    }
  }

  lemma {:induction false} TotalSame(sizes: map<HostKey, nat>, sizes': map<HostKey, nat>, pins: map<HostKey, nat>, order: seq<HostKey>)
    requires forall k :: k in order ==> k in sizes && k in sizes' && sizes'[k] == sizes[k]
    ensures Total(sizes', order) == Total(sizes, order) && PinnedTotal(sizes', pins, order) == PinnedTotal(sizes, pins, order)
  {
    if order != [] {
      var head := order[0];
      assert head in order && sizes'[head] == sizes[head];
      TotalSame(sizes, sizes', pins, order[1..]);
    }
  }

  /** Where bytes can be reclaimed, some key is not pinned. */
  lemma {:induction false} UnpinnedExists(sizes: map<HostKey, nat>, pins: map<HostKey, nat>, order: seq<HostKey>)
    requires forall k :: k in order ==> k in sizes
    ensures PinnedTotal(sizes, pins, order) <= Total(sizes, order)
    ensures PinnedTotal(sizes, pins, order) < Total(sizes, order) ==> exists i :: 0 <= i < |order| && order[i] !in pins
  {
    if order != [] {
      var head := order[0];
      assert head in order;
      UnpinnedExists(sizes, pins, order[1..]);
      if head !in pins {
        assert order[0] !in pins;
      } else if i :| 0 <= i < |order[1..]| && order[1..][i] !in pins {
        assert order[i + 1] !in pins;
      }
    }
  }

  lemma {:induction false} ShortestExists(keys: set<HostKey>) returns (k: HostKey)
    requires keys != {}
    ensures k in keys && forall other :: other in keys ==> |k.tokens| <= |other.tokens|
    decreases |keys|
  {
    k :| k in keys;
    if keys != {k} {
      assert keys == (keys - {k}) + {k};
      var other := ShortestExists(keys - {k});
      if |other.tokens| < |k.tokens| {
        k := other;
      }
    }
  }

  /** The books of the stored entries. */
  ghost predicate Stored<V>(
    kv: (string, seq<Token>) -> V, entries: map<HostKey, Payload<V>>, order: seq<HostKey>, sizes: map<HostKey, nat>, bytes: int)
  {
    && Distinct(order) && (forall k :: k in order <==> k in entries)
    && sizes.Keys == entries.Keys
    && (forall k :: k in entries ==> EntryOk(kv, k, entries[k]) && sizes[k] == Bytes(entries[k]) > 0)
    && bytes == Total(sizes, order)
  }

  /** An entry holds, per token, the value of the prompt up to that token. */
  ghost predicate EntryOk<V>(kv: (string, seq<Token>) -> V, k: HostKey, p: Payload<V>) {
    && |p.values| == |k.tokens| > 0
    && forall i :: 0 <= i < |p.values| ==> p.values[i] == kv(k.ns, k.tokens[..i + 1])
  }

  /** One entry goes. */
  lemma StoredWithout<V>(
    kv: (string, seq<Token>) -> V, entries: map<HostKey, Payload<V>>, order: seq<HostKey>, sizes: map<HostKey, nat>,
    pins: map<HostKey, nat>, bytes: int, i: nat)
    requires Stored(kv, entries, order, sizes, bytes) && i < |order| && order[i] !in pins
    ensures order[i] in sizes && order[i] in entries
    ensures Stored(kv, entries - {order[i]}, Out(order, i), sizes - {order[i]}, bytes - sizes[order[i]])
    ensures (forall k :: k in order ==> k in sizes) && (forall k :: k in Out(order, i) ==> k in sizes - {order[i]})
    ensures PinnedTotal(sizes - {order[i]}, pins, Out(order, i)) == PinnedTotal(sizes, pins, order)
  {
    hide EntryOk, Bytes, Total, PinnedTotal;
    var key, rest := order[i], Out(order, i);
    OutDistinct(order, i);
    TotalOut(sizes, pins, order, i);
    TotalSame(sizes, sizes - {key}, pins, rest);
  }

  lemma OutDistinct(order: seq<HostKey>, i: nat)
    requires i < |order| && Distinct(order)
    ensures order[i] in order && Distinct(Out(order, i)) && order[i] !in Out(order, i)
    ensures Distinct(Out(order, i) + [order[i]])
  {
    var rest := Out(order, i);
    forall j | 0 <= j < |rest| ensures rest[j] == order[if j < i then j else j + 1] {}
  }

  /** One entry is added at the recent end. */
  lemma StoredWith<V>(
    kv: (string, seq<Token>) -> V, entries: map<HostKey, Payload<V>>, order: seq<HostKey>, sizes: map<HostKey, nat>,
    pins: map<HostKey, nat>, bytes: int, key: HostKey, p: Payload<V>)
    requires Stored(kv, entries, order, sizes, bytes) && key !in entries
    requires EntryOk(kv, key, p) && Bytes(p) > 0
    ensures Stored(kv, entries[key := p], order + [key], sizes[key := Bytes(p)], bytes + Bytes(p))
  {
    hide EntryOk, Bytes;
    var sizes' := sizes[key := Bytes(p)];
    TotalSame(sizes, sizes', pins, order);
    TotalAppend(sizes', pins, order, key);
  }

  /** An entry becomes the most recent one. */
  lemma StoredTouched<V>(
    kv: (string, seq<Token>) -> V, entries: map<HostKey, Payload<V>>, order: seq<HostKey>, sizes: map<HostKey, nat>,
    pins: map<HostKey, nat>, bytes: int, i: nat)
    requires Stored(kv, entries, order, sizes, bytes) && i < |order|
    ensures Stored(kv, entries, Out(order, i) + [order[i]], sizes, bytes)
  {
    hide EntryOk, Bytes, Total, PinnedTotal, Distinct;
    OutDistinct(order, i);
    TotalOut(sizes, pins, order, i);
    TotalAppend(sizes, pins, Out(order, i), order[i]);
  }

  /** The use order without its first `n` unpinned keys. */
  function Spared(order: seq<HostKey>, pins: map<HostKey, nat>, n: nat): seq<HostKey> {
    if n == 0 || order == [] then order
    else if order[0] in pins then [order[0]] + Spared(order[1..], pins, n)
    else Spared(order[1..], pins, n - 1)
  }

  lemma SparedNone(order: seq<HostKey>, pins: map<HostKey, nat>)
    ensures Spared(order, pins, 0) == order
  {
  }

  /** One more of them. */
  lemma {:induction false} SparedNext(order: seq<HostKey>, pins: map<HostKey, nat>, n: nat, i: nat)
    requires i < |Spared(order, pins, n)| && Spared(order, pins, n)[i] !in pins
    requires forall j :: 0 <= j < i ==> Spared(order, pins, n)[j] in pins
    ensures Spared(order, pins, n + 1) == Out(Spared(order, pins, n), i)
  {
    var left, rest := Spared(order, pins, n), order[1..];
    SparedNone(rest, pins);
    if order[0] in pins {
      var tail := Spared(rest, pins, n);
      assert left == [order[0]] + tail;
      assert i > 0 && left[i] == tail[i - 1] && forall j :: 0 <= j < i - 1 ==> tail[j] == left[j + 1];
      SparedNext(rest, pins, n, i - 1);
      assert Out(left, i) == [order[0]] + Out(tail, i - 1);
    } else if n > 0 {
      SparedNext(rest, pins, n - 1, i);
    } else {
      assert i == 0 && Out(order, 0) == rest;
    }
  }

  ghost function BytesOf(sizes: map<HostKey, nat>, order: seq<HostKey>): nat {
    if forall k :: k in order ==> k in sizes then Total(sizes, order) else 0
  }

  /** The bytes in use are those of the keys that are left, by the sizes they had. */
  lemma BytesAre<V>(
    kv: (string, seq<Token>) -> V, entries: map<HostKey, Payload<V>>, order: seq<HostKey>, sizes: map<HostKey, nat>, bytes: int,
    before: map<HostKey, nat>)
    requires Stored(kv, entries, order, sizes, bytes)
    requires forall k :: k in sizes ==> k in before && sizes[k] == before[k]
    ensures bytes == BytesOf(before, order)
  {
    TotalSame(sizes, before, map[], order);
  }

  class HostPrefixCache<V> {
    const maxBytes: nat
    const blockSize: nat
    ghost const kv: (string, seq<Token>) -> V
    var entries: map<HostKey, Payload<V>>
    /** The keys from least to most recently used. */
    var order: seq<HostKey>
    var sizes: map<HostKey, nat>
    var pins: map<HostKey, nat>
    var index: Index
    var bytes: int
    /** The keys the index still lists although their entries are gone. */
    ghost var stale: set<HostKey>

    ghost predicate Books()
      reads this
    {
      blockSize > 0 && bytes <= maxBytes && Stored(kv, entries, order, sizes, bytes)
    }

    /** The keys the index lists. */
    ghost function Listed(): set<HostKey>
      reads this
    {
      entries.Keys + stale
    }

    /** The books are right, the index lists the stored and the stale keys, and only such are pinned. */
    ghost predicate Valid()
      reads this
    {
      && Books() && Indexed(index, Listed(), blockSize)
      && stale !! entries.Keys && pins.Keys <= Listed()
      && forall k :: k in stale ==> |k.tokens| >= blockSize
    }

    constructor (maxBytes: nat, blockSize: nat, ghost kv: (string, seq<Token>) -> V)
      requires maxBytes > 0 && blockSize > 0
      ensures Valid() && entries == map[] && pins == map[] && stale == {} && bytes == 0
      ensures this.maxBytes == maxBytes && this.blockSize == blockSize && this.kv == kv
    {
      this.maxBytes := maxBytes;
      this.blockSize := blockSize;
      this.kv := kv;
      entries, sizes, pins, index := map[], map[], map[], map[];
      order := [];
      bytes := 0;
      stale := {};
    }

    // ----- the index

    method AddIndex(key: HostKey, ghost keys: set<HostKey>)
      requires blockSize > 0 && Indexed(index, keys, blockSize)
      modifies this`index
      ensures Indexed(index, keys + {key}, blockSize)
    {
      hide Chunks, Indexed, Changed;
      var path := Chunks(key.tokens, blockSize);
      ghost var before := index;
      ChangedNothing(before, key, true);
      assert path[..0] == [] && path[..|path|] == path;
      for i := 0 to |path|
        invariant Changed(before, index, key, path[..i], true)
      {
        var node := HostNode(key.ns, path[..i + 1]);
        ChangedNext(before, index, index[node := SourcesAt(index, node) + {key}], key, path, i, true);
        index := index[node := SourcesAt(index, node) + {key}];
      }
      IndexedAdd(before, index, keys, blockSize, key);
    }

    /** Leaves the path from its end; a node nobody lists any more goes. */
    method RemoveIndex(key: HostKey, ghost keys: set<HostKey>)
      requires blockSize > 0 && Indexed(index, keys, blockSize)
      modifies this`index
      ensures Indexed(index, keys - {key}, blockSize)
    {
      hide Chunks, Indexed, Changed;
      var path := Chunks(key.tokens, blockSize);
      ghost var before := index;
      ChangedNothing(before, key, false);
      assert path[..0] == [] && path[..|path|] == path;
      for i := 0 to |path|
        invariant Changed(before, index, key, path[..i], false)
      {
        var node := HostNode(key.ns, path[..i + 1]);
        var sources := SourcesAt(index, node) - {key};
        ChangedNext(before, index, if sources == {} then index - {node} else index[node := sources], key, path, i, false);
        index := if sources == {} then index - {node} else index[node := sources];
      }
      IndexedRemove(before, index, keys, blockSize, key);
    }

    // ----- storing

    /** The least recently used key that is not pinned. */
    method FirstUnpinned() returns (i: nat)
      requires exists j :: 0 <= j < |order| && order[j] !in pins
      ensures i < |order| && order[i] !in pins && forall j :: 0 <= j < i ==> order[j] in pins
    {
      i := 0;
      while order[i] in pins
        invariant i < |order| && forall j :: 0 <= j < i ==> order[j] in pins
        invariant exists j :: i <= j < |order| && order[j] !in pins
        decreases |order| - i
      {
        i := i + 1;
      }
    }

    /** Forgets an entry, but not what the index says about it. */
    method Drop(i: nat)
      requires Books() && i < |order| && order[i] !in pins
      modifies this`entries, this`order, this`sizes, this`bytes
      ensures Books()
      ensures old(order)[i] in old(entries) && entries == old(entries) - {old(order)[i]} && order == Out(old(order), i)
      ensures bytes < old(bytes) && sizes == old(sizes) - {old(order)[i]}
      ensures PinnedBytes() == old(PinnedBytes())
    {
      hide Stored, Out;
      var key := order[i];
      StoredWithout(kv, entries, order, sizes, pins, bytes, i);
      SizesPositive(kv, entries, order, sizes, bytes, key);
      bytes := bytes - sizes[key];
      entries := entries - {key};
      sizes := sizes - {key};
      order := Out(order, i);
      OrderSized(kv, entries, order, sizes, bytes);
    }

    ghost function PinnedBytes(): nat
      reads this
    {
      if forall k :: k in order ==> k in sizes then PinnedTotal(sizes, pins, order) else 0
    }

    /**
     Evicts unpinned entries, least recently used first, until `size` more bytes fit, and
     no more of them than that takes; the index may list more keys than are stored, such as
     the one being replaced.
     */
    method MakeRoom(size: nat, ghost gone: set<HostKey>) returns (ghost evicted: nat)
      requires Books() && Indexed(index, entries.Keys + gone, blockSize) && gone !! entries.Keys
      requires PinnedBytes() + size <= maxBytes
      modifies this`entries, this`order, this`sizes, this`bytes, this`index
      ensures Books() && Indexed(index, entries.Keys + gone, blockSize) && bytes + size <= maxBytes
      ensures forall k :: k in entries ==> k in old(entries) && entries[k] == old(entries)[k]
      ensures forall k :: k in pins && k in old(entries) ==> k in entries
      ensures old(bytes) + size <= maxBytes ==> entries == old(entries) && bytes == old(bytes)
      ensures order == Spared(old(order), pins, evicted) && forall k :: k in order <==> k in entries
      ensures evicted > 0 ==> BytesOf(old(sizes), Spared(old(order), pins, evicted - 1)) + size > maxBytes
    {
      hide Stored, Indexed, Out, PinnedTotal, Spared, BytesOf;
      evicted := 0;
      SparedNone(order, pins);
      KeysAre(kv, entries, order, sizes, bytes);
      while bytes + size > maxBytes
        invariant Books() && Indexed(index, entries.Keys + gone, blockSize) && gone !! entries.Keys
        invariant PinnedBytes() == old(PinnedBytes())
        invariant forall k :: k in pins && k in old(entries) ==> k in entries
        invariant forall k :: k in entries ==> k in old(entries) && entries[k] == old(entries)[k]
        invariant old(bytes) + size <= maxBytes ==> entries == old(entries) && bytes == old(bytes)
        invariant order == Spared(old(order), pins, evicted)
        invariant forall k :: k in sizes ==> k in old(sizes) && sizes[k] == old(sizes)[k]
        invariant evicted > 0 ==> BytesOf(old(sizes), Spared(old(order), pins, evicted - 1)) + size > maxBytes
        decreases bytes
      {
        OrderSized(kv, entries, order, sizes, bytes);
        BytesAre(kv, entries, order, sizes, bytes, old(sizes));
        EvictOne(old(order), evicted, gone);
        evicted := evicted + 1;
      }
      KeysAre(kv, entries, order, sizes, bytes);
    }

    /** One turn of it: the least recently used entry that is not pinned goes. */
    method EvictOne(ghost was: seq<HostKey>, ghost evicted: nat, ghost gone: set<HostKey>)
      requires Books() && Indexed(index, entries.Keys + gone, blockSize) && gone !! entries.Keys
      requires PinnedBytes() < bytes && order == Spared(was, pins, evicted)
      modifies this`entries, this`order, this`sizes, this`bytes, this`index
      ensures Books() && Indexed(index, entries.Keys + gone, blockSize) && gone !! entries.Keys
      ensures PinnedBytes() == old(PinnedBytes()) && bytes < old(bytes)
      ensures forall k :: k in pins && k in old(entries) ==> k in entries
      ensures forall k :: k in entries ==> k in old(entries) && entries[k] == old(entries)[k]
      ensures order == Spared(was, pins, evicted + 1)
      ensures forall k :: k in sizes ==> k in old(sizes) && sizes[k] == old(sizes)[k]
    {
      hide Stored, Indexed, Out, PinnedTotal, Spared;
      OrderSized(kv, entries, order, sizes, bytes);
      UnpinnedExists(sizes, pins, order);
      var i := FirstUnpinned();
      var victim := order[i];
      ghost var keys := entries.Keys;
      SparedNext(was, pins, evicted, i);
      Drop(i);
      assert (keys + gone) - {victim} == entries.Keys + gone;
      RemoveIndex(victim, keys + gone);
    }

    /** The bytes an eviction could reclaim: those of the unpinned entries. */
    method Reclaimable() returns (n: nat)
      requires Books()
      ensures n == bytes - PinnedBytes()
    {
      hide Stored, EntryOk, Bytes;
      OrderSized(kv, entries, order, sizes, bytes);
      n := 0;
      assert order[0..] == order;
      for i := 0 to |order|
        invariant n + Total(sizes, order[i..]) - PinnedTotal(sizes, pins, order[i..]) == Total(sizes, order) - PinnedTotal(sizes, pins, order)
      {
        assert order[i..][1..] == order[i + 1..];
        var k := order[i];
        assert k in order;
        if k !in pins {
          n := n + sizes[k];
        }
      }
      assert order[|order|..] == [];
    }

    /** The payload holds the prompt's values, and each occupies something. */
    ghost predicate Fits(key: HostKey, payload: Payload<V>) {
      && payload.bytesPerToken > 0
      && forall i :: 0 <= i < |key.tokens| && i < |payload.values| ==> payload.values[i] == kv(key.ns, key.tokens[..i + 1])
    }

    /** What a prompt's values would occupy. */
    static function Size(key: HostKey, payload: Payload<V>): nat {
      |key.tokens| * payload.bytesPerToken
    }

    /** `Put` gets as far as looking at what is stored. */
    predicate Proper(key: HostKey, payload: Payload<V>) {
      key.ns != "" && 0 < |key.tokens| <= |payload.values| && Size(key, payload) <= maxBytes
    }

    /** An unpinned entry whose replacement does not fit beside what is pinned. */
    ghost predicate Outgrown(key: HostKey, payload: Payload<V>)
      reads this
    {
      Proper(key, payload) && key in entries && key !in pins && PinnedBytes() + Size(key, payload) > maxBytes
    }

    ghost predicate Storable(key: HostKey, payload: Payload<V>)
      reads this
    {
      Proper(key, payload) && (key in pins || PinnedBytes() + Size(key, payload) <= maxBytes)
    }

    /** What a call leaves of an entry's index: a refused replacement keeps it, a stored entry owns it again. */
    ghost function StaleAfter(key: HostKey, outgrown: bool, replaced: bool, was: set<HostKey>): set<HostKey> {
      if outgrown && |key.tokens| >= blockSize then was + {key} else if replaced then was - {key} else was
    }

    /**
     Stores a prompt's values if they fit beside what is pinned. Replacing an entry drops
     the old one first; if the new one is then refused, the index still lists the key.
     A pinned key is taken for stored, even a stale one.
     */
    method Put(ns: string, tokens: seq<Token>, payload: Payload<V>) returns (r: Result<bool>)
      requires Valid() && Fits(HostKey(ns, tokens), payload)
      modifies this`entries, this`order, this`sizes, this`bytes, this`index, this`stale
      ensures Valid()
      ensures stale == StaleAfter(HostKey(ns, tokens), old(Outgrown(HostKey(ns, tokens), payload)),
                                  r == Ok(true) && HostKey(ns, tokens) !in pins, old(stale))
      ensures r == Err(ValueError) <==> ns != "" && tokens != [] && |payload.values| < |tokens|
      ensures r.Err? ==> r.error == ValueError
      ensures r == Ok(true) <==> old(Storable(HostKey(ns, tokens), payload))
      ensures r == Ok(true) && HostKey(ns, tokens) !in entries <==>
                Proper(HostKey(ns, tokens), payload) && HostKey(ns, tokens) in pins && HostKey(ns, tokens) in old(stale)
      ensures r != Ok(true) ==> entries == old(entries) - if old(Outgrown(HostKey(ns, tokens), payload)) then {HostKey(ns, tokens)} else {}
      ensures forall k :: k in entries && k != HostKey(ns, tokens) ==> k in old(entries) && entries[k] == old(entries)[k]
      ensures forall k :: k in pins && k in old(entries) ==> k in entries && entries[k] == old(entries)[k]
      ensures HostKey(ns, tokens) in pins ==> entries == old(entries)
      ensures r == Ok(true) && HostKey(ns, tokens) !in pins ==>
                && HostKey(ns, tokens) in entries && |tokens| <= |payload.values|
                && entries[HostKey(ns, tokens)] == Payload(payload.values[..|tokens|], payload.bytesPerToken)
      ensures r == Ok(true) && HostKey(ns, tokens) !in pins && HostKey(ns, tokens) !in old(entries)
              && old(bytes) + Size(HostKey(ns, tokens), payload) <= maxBytes ==>
                bytes == old(bytes) + Size(HostKey(ns, tokens), payload) && forall k :: k in old(entries) ==> k in entries
    {
      hide Stored, Indexed, Out, PinnedTotal, Total, EntryOk, Bytes;
      var key := HostKey(ns, tokens);
      if ns == "" || tokens == [] {
        return Ok(false);
      }
      if |payload.values| < |tokens| {
        return Err(ValueError);
      }
      var owned := Payload(payload.values[..|tokens|], payload.bytesPerToken);
      OwnedOk(kv, key, payload, owned);
      assert entries - {} == entries;
      if Bytes(owned) > maxBytes {
        return Ok(false);
      }
      if key in pins {
        return Ok(true);
      }
      var stored := Replace(key, owned);
      r := Ok(stored);
    }

    /** Stores an entry in place of the one its key may have. */
    method Replace(key: HostKey, owned: Payload<V>) returns (stored: bool)
      requires Valid() && key !in pins && EntryOk(kv, key, owned) && 0 < Bytes(owned) <= maxBytes
      modifies this`entries, this`order, this`sizes, this`bytes, this`index, this`stale
      ensures Valid()
      ensures stored <==> old(PinnedBytes()) + Bytes(owned) <= maxBytes
      ensures stored ==> key in entries && entries[key] == owned
      ensures forall k :: k in entries && k != key ==> k in old(entries) && entries[k] == old(entries)[k]
      ensures forall k :: k in pins && k in old(entries) ==> k in entries
      ensures !stored ==> entries == old(entries) - {key} && index == old(index)
      ensures stale == StaleAfter(key, !stored && key in old(entries), stored, old(stale))
      ensures stored && old(bytes) + Bytes(owned) <= maxBytes && key !in old(entries) ==>
                bytes == old(bytes) + Bytes(owned) && forall k :: k in old(entries) ==> k in entries
    {
      hide Stored, Indexed, Out, PinnedTotal, Total, EntryOk, Bytes;
      ghost var gone := stale;
      KeysAre(kv, entries, order, sizes, bytes);
      if key in sizes {
        var i := IndexOf(key);
        Drop(i);
        gone := gone + {key};
      } else {
        assert entries - {key} == entries;
      }
      assert entries == old(entries) - {key};
      assert entries.Keys + gone == old(Listed());
      var reclaimable := Reclaimable();
      if bytes + Bytes(owned) - reclaimable > maxBytes {
        if key in old(entries) {
          RefusedIndex(index, old(Listed()), blockSize, key);
          if |key.tokens| >= blockSize {
            stale := gone;
          } else {
            assert old(Listed()) - {key} == Listed();
          }
        }
        return false;
      }
      Keep(key, owned, gone);
      stale := stale - {key};
      assert gone - {key} == stale;
      stored := true;
    }

    /** Makes room for a new entry and enters it. */
    method Keep(key: HostKey, owned: Payload<V>, ghost gone: set<HostKey>)
      requires Books() && Indexed(index, entries.Keys + gone, blockSize) && gone !! entries.Keys
      requires key !in entries && EntryOk(kv, key, owned) && 0 < Bytes(owned) && PinnedBytes() + Bytes(owned) <= maxBytes
      modifies this`entries, this`order, this`sizes, this`bytes, this`index
      ensures Books() && Indexed(index, entries.Keys + (gone - {key}), blockSize)
      ensures key in entries && entries[key] == owned
      ensures forall k :: k in entries && k != key ==> k in old(entries) && entries[k] == old(entries)[k]
      ensures forall k :: k in pins && k in old(entries) ==> k in entries
      ensures old(bytes) + Bytes(owned) <= maxBytes ==> entries == old(entries)[key := owned] && bytes == old(bytes) + Bytes(owned)
    {
      hide Stored, Indexed, Out, PinnedTotal, Total, EntryOk, Bytes;
      ghost var evicted := MakeRoom(Bytes(owned), gone);
      ghost var keys := entries.Keys;
      AddIndex(key, keys + gone);
      StoredWith(kv, entries, order, sizes, pins, bytes, key, owned);
      entries := entries[key := owned];
      sizes := sizes[key := Bytes(owned)];
      order := order + [key];
      bytes := bytes + Bytes(owned);
      assert keys + gone + {key} == entries.Keys + (gone - {key});
    }

    method IndexOf(key: HostKey) returns (i: nat)
      requires key in order
      ensures i < |order| && order[i] == key
    {
      i := 0;
      while order[i] != key
        invariant i < |order| && key in order[i..]
        decreases |order| - i
      {
        assert order[i..] == [order[i]] + order[i + 1..];
        i := i + 1;
      }
    }

    // ----- looking up

    /** The longest block-aligned prefix shared with any key the index lists, in blocks. */
    ghost function Reach(ns: string, tokens: seq<Token>): nat
      requires blockSize > 0
      reads this
    {
      LongestShared(Listed(), blockSize, ns, tokens, |tokens| / blockSize)
    }

    /** The key that serves a lookup, and for how many tokens; the index may name a stale one. */
    method MatchKey(ns: string, tokens: seq<Token>) returns (m: Option<(HostKey, nat)>)
      requires Valid()
      ensures HostKey(ns, tokens) in entries ==> m == Some((HostKey(ns, tokens), |tokens|))
      ensures HostKey(ns, tokens) !in entries ==>
                && (m.None? <==> Reach(ns, tokens) == 0)
                && (m.Some? ==> m.value.1 == Times(Reach(ns, tokens), blockSize) && Shortest(m.value.0, ns, tokens, Reach(ns, tokens)))
    {
      hide Stored, Chunks, Indexed;
      var exact := HostKey(ns, tokens);
      if exact in entries {
        return Some((exact, |tokens|));
      }
      var path := Chunks(tokens, blockSize);
      ghost var n := Reach(ns, tokens);
      m := None;
      var i := 0;
      while i < |path|
        invariant i <= |path| && i <= n && (m.None? <==> i == 0)
        invariant m.Some? ==> m.value.1 == Times(i, blockSize) && Shortest(m.value.0, ns, tokens, i)
        decreases |path| - i
      {
        var node := HostNode(ns, path[..i + 1]);
        NodeIff(index, Listed(), blockSize, ns, tokens, i + 1);
        if i < n {
          SharesFewer(Listed(), blockSize, ns, tokens, n, i + 1);
        }
        if node !in index {
          break;
        }
        var sources := index[node];
        if sources != {} {
          ghost var shortest := ShortestExists(sources);
          var source :| source in sources && forall other :: other in sources ==> |source.tokens| <= |other.tokens|;
          m := Some((source, Times(i + 1, blockSize)));
        }
        i := i + 1;
      }
    }

    /** A listed key that shares `n` blocks with the prompt, and of those one of the shortest. */
    ghost predicate Shortest(k: HostKey, ns: string, tokens: seq<Token>, n: nat)
      reads this
    {
      && blockSize > 0 && 0 < n <= |tokens| / blockSize
      && var node := HostNode(ns, Chunks(tokens, blockSize)[..n]);
      && k in Listed() && Under(k, blockSize, node)
      && forall other :: other in Listed() && Under(other, blockSize, node) ==> |k.tokens| <= |other.tokens|
    }

    /** A lookup may be served by a stale key: one of the shortest candidates is stale. */
    ghost predicate MayMiss(ns: string, tokens: seq<Token>)
      requires blockSize > 0
      reads this
    {
      HostKey(ns, tokens) !in entries && exists k :: k in stale && Shortest(k, ns, tokens, Reach(ns, tokens))
    }

    /** A lookup can only be served by a stale key: all the shortest candidates are stale. */
    ghost predicate MustMiss(ns: string, tokens: seq<Token>)
      requires blockSize > 0
      reads this
    {
      && HostKey(ns, tokens) !in entries && Reach(ns, tokens) > 0
      && forall k :: Shortest(k, ns, tokens, Reach(ns, tokens)) ==> k in stale
    }

    /** A prefix hit returns as many tokens' values as it says, and they are the prompt's own. */
    ghost predicate Answers(m: HostMatch<V>, ns: string, tokens: seq<Token>)
      reads this
    {
      && m.matchedTokens <= |tokens|
      && (m.payload.None? <==> m.entryKey.None?)
      && (m.entryKey.None? ==> m.matchedTokens == 0)
      && (m.payload.Some? ==>
            && m.entryKey.value in entries
            && |m.payload.value| == m.matchedTokens
            && forall p: nat :: p < m.matchedTokens ==> m.payload.value[p] == kv(ns, tokens[..p + 1]))
    }

    /** The number of tokens a lookup finds: all of them, or the longest block-aligned prefix shared with anything stored. */
    ghost function Found(ns: string, tokens: seq<Token>): nat
      requires blockSize > 0
      reads this
    {
      if HostKey(ns, tokens) in entries then |tokens|
      else Times(LongestShared(entries.Keys, blockSize, ns, tokens, |tokens| / blockSize), blockSize)
    }

    /**
     Looks a prompt up. It fails when the candidate the index offers is stale, among
     equally short candidates whichever is looked at; what it finds otherwise is the
     longest prefix shared with anything stored, stale keys or not.
     */
    method Match(ns: string, tokens: seq<Token>) returns (r: Result<HostMatch<V>>, ghost named: Option<HostKey>)
      requires Valid()
      modifies this`order
      ensures Valid()
      ensures r.Err? ==> r.error == KeyError && order == old(order)
      ensures (r.Err? ==> old(MayMiss(ns, tokens))) && (old(MustMiss(ns, tokens)) ==> r.Err?)
      ensures r.Err? <==> named.Some? && named.value in stale
      ensures HostKey(ns, tokens) in entries ==> named == Some(HostKey(ns, tokens))
      ensures r.Ok? ==> r.value.matchedTokens == Found(ns, tokens) && Answers(r.value, ns, tokens) && named == r.value.entryKey
      ensures r.Ok? ==> order == old(order) || (named.Some? && Recent(old(order), order, named.value))
    {
      hide Stored, Indexed, Chunks, Out, EntryOk, LongestShared;
      var m := MatchKey(ns, tokens);
      if m.None? {
        NothingFound(ns, tokens);
        return Ok(HostMatch(0, None, None)), None;
      }
      var (key, n) := m.value;
      named := Some(key);
      if key !in entries {
        return Err(KeyError), named;
      }
      var found := ReadEntry(ns, tokens, key, n);
      r := Ok(found);
    }

    lemma NothingFound(ns: string, tokens: seq<Token>)
      requires Valid() && HostKey(ns, tokens) !in entries && Reach(ns, tokens) == 0
      ensures Found(ns, tokens) == 0 && Answers(HostMatch(0, None, None), ns, tokens)
    {
      LongestOfFewer(entries.Keys, Listed(), blockSize, ns, tokens);
    }

    lemma FoundReads(ns: string, tokens: seq<Token>, key: HostKey, n: nat)
      requires Valid() && key in entries
      requires if HostKey(ns, tokens) in entries then key == HostKey(ns, tokens) && n == |tokens|
               else n == Times(Reach(ns, tokens), blockSize) && Shortest(key, ns, tokens, Reach(ns, tokens))
      ensures n == Found(ns, tokens)
      ensures n <= |tokens| && n <= |entries[key].values|
      ensures forall p: nat :: p < n ==> entries[key].values[p] == kv(ns, tokens[..p + 1])
    {
      hide Chunks, Indexed, Total, EntryOk, Under, LongestShared;
      assert EntryOk(kv, key, entries[key]);
      if HostKey(ns, tokens) in entries {
        assert key.tokens == tokens;
        EntryReads(kv, key, entries[key], ns, tokens, n);
      } else {
        UnderMeansSharing(key, blockSize, ns, tokens, Reach(ns, tokens));
        LongestOfFewer(entries.Keys, Listed(), blockSize, ns, tokens);
        EntryReads(kv, key, entries[key], ns, tokens, n);
      }
    }

    /** A hit on a stored entry, which becomes the most recently used. */
    method ReadEntry(ns: string, tokens: seq<Token>, key: HostKey, n: nat) returns (m: HostMatch<V>)
      requires Valid() && key in entries
      requires if HostKey(ns, tokens) in entries then key == HostKey(ns, tokens) && n == |tokens|
               else n == Times(Reach(ns, tokens), blockSize) && Shortest(key, ns, tokens, Reach(ns, tokens))
      modifies this`order
      ensures Valid() && Recent(old(order), order, key)
      ensures m.matchedTokens == Found(ns, tokens) && Answers(m, ns, tokens) && m.entryKey == Some(key)
    {
      hide Stored, Indexed, Chunks, Out, EntryOk, LongestShared, Recent;
      FoundReads(ns, tokens, key, n);
      Touch(key);
      var values := entries[key].values;
      m := HostMatch(n, Some(if n < |values| then values[..n] else values), Some(key));
    }

    /** Makes a stored key the most recently used. */
    method Touch(key: HostKey)
      requires Books() && key in entries
      modifies this`order
      ensures Books() && Recent(old(order), order, key)
    {
      hide Stored, Out;
      KeysAre(kv, entries, order, sizes, bytes);
      var i := IndexOf(key);
      StoredTouched(kv, entries, order, sizes, pins, bytes, i);
      order := Out(order, i) + [order[i]];
    }

    /**
     A lookup whose entry cannot be evicted until it is unpinned. The pin is counted
     before the entry is read: a lookup that fails leaves it on a stale key.
     */
    method Pin(ns: string, tokens: seq<Token>) returns (r: Result<HostMatch<V>>, ghost named: Option<HostKey>)
      requires Valid()
      modifies this`order, this`pins
      ensures Valid()
      ensures named.None? ==> pins == old(pins)
      ensures named.Some? ==>
                pins == old(pins)[named.value := if named.value in old(pins) then old(pins)[named.value] + 1 else 1]
      ensures r.Err? ==> r.error == KeyError && order == old(order)
      ensures (r.Err? ==> old(MayMiss(ns, tokens))) && (old(MustMiss(ns, tokens)) ==> r.Err?)
      ensures r.Err? <==> named.Some? && named.value in stale
      ensures HostKey(ns, tokens) in entries ==> named == Some(HostKey(ns, tokens))
      ensures r.Ok? ==> r.value.matchedTokens == Found(ns, tokens) && Answers(r.value, ns, tokens) && named == r.value.entryKey
      ensures r.Ok? ==> order == old(order) || (named.Some? && Recent(old(order), order, named.value))
    {
      hide Stored, Indexed, Chunks, Out, EntryOk, LongestShared, Recent, HostPrefixCache.Answers, HostPrefixCache.Found, Under;
      var m := MatchKey(ns, tokens);
      if m.None? {
        NothingFound(ns, tokens);
        return Ok(HostMatch(0, None, None)), None;
      }
      var (key, n) := m.value;
      named := Some(key);
      pins := pins[key := PinCount(pins, key) + 1];
      if key !in entries {
        return Err(KeyError), named;
      }
      var found := ReadEntry(ns, tokens, key, n);
      r := Ok(found);
    }

    /** Gives one pin back. */
    method Unpin(key: HostKey)
      requires Valid()
      modifies this`pins
      ensures Valid()
      ensures key in old(pins) && old(pins)[key] > 1 ==> pins == old(pins)[key := old(pins)[key] - 1]
      ensures key !in old(pins) || old(pins)[key] <= 1 ==> pins == old(pins) - {key}
    {
      hide Stored, Indexed;
      var count := PinCount(pins, key);
      if count <= 1 {
        pins := pins - {key};
      } else {
        pins := pins[key := count - 1];
      }
    }
  }

  /** A key was moved to the recent end. */
  predicate Recent(before: seq<HostKey>, after: seq<HostKey>, key: HostKey) {
    exists i :: 0 <= i < |before| && before[i] == key && after == Out(before, i) + [key]
  }

  /** Fewer keys share no longer prefix; they share as long a one if one of them is as good as the best. */
  lemma LongestOfFewer(keys: set<HostKey>, more: set<HostKey>, blockSize: nat, ns: string, tokens: seq<Token>)
    requires keys <= more && blockSize > 0
    ensures var limit := |tokens| / blockSize;
            var n := LongestShared(more, blockSize, ns, tokens, limit);
            && LongestShared(keys, blockSize, ns, tokens, limit) <= n
            && (Shares(keys, blockSize, ns, tokens, n) ==> LongestShared(keys, blockSize, ns, tokens, limit) == n)
  {
    hide Chunks, Under;
    var limit := |tokens| / blockSize;
    var m := LongestShared(keys, blockSize, ns, tokens, limit);
    if m > 0 {
      assert Shares(keys, blockSize, ns, tokens, m);
      assert Shares(more, blockSize, ns, tokens, m);
    }
  }

  lemma SizesPositive<V>(
    kv: (string, seq<Token>) -> V, entries: map<HostKey, Payload<V>>, order: seq<HostKey>, sizes: map<HostKey, nat>, bytes: int, key: HostKey)
    requires Stored(kv, entries, order, sizes, bytes) && key in entries
    ensures key in sizes && sizes[key] > 0
  {
  }

  lemma OrderSized<V>(
    kv: (string, seq<Token>) -> V, entries: map<HostKey, Payload<V>>, order: seq<HostKey>, sizes: map<HostKey, nat>, bytes: int)
    requires Stored(kv, entries, order, sizes, bytes)
    ensures forall k :: k in order ==> k in sizes
    ensures bytes == Total(sizes, order)
  {
  }

  lemma KeysAre<V>(
    kv: (string, seq<Token>) -> V, entries: map<HostKey, Payload<V>>, order: seq<HostKey>, sizes: map<HostKey, nat>, bytes: int)
    requires Stored(kv, entries, order, sizes, bytes)
    ensures sizes.Keys == entries.Keys && forall k :: k in order <==> k in entries
  {
  }

  lemma OwnedOk<V>(kv: (string, seq<Token>) -> V, key: HostKey, payload: Payload<V>, owned: Payload<V>)
    requires payload.bytesPerToken > 0 && 0 < |key.tokens| <= |payload.values|
    requires forall i :: 0 <= i < |key.tokens| && i < |payload.values| ==> payload.values[i] == kv(key.ns, key.tokens[..i + 1])
    requires owned == Payload(payload.values[..|key.tokens|], payload.bytesPerToken)
    ensures EntryOk(kv, key, owned) && Bytes(owned) == |key.tokens| * payload.bytesPerToken > 0
  {
    MulMonotone(1, |key.tokens|, payload.bytesPerToken);
  }

  /** What a refused replacement leaves of the index. */
  lemma RefusedIndex(index: Index, keys: set<HostKey>, blockSize: nat, key: HostKey)
    requires Indexed(index, keys, blockSize)
    ensures Indexed(index, keys - {key}, blockSize) <==> key !in keys || |key.tokens| < blockSize
  {
    if key in keys {
      IndexedDangles(index, keys, blockSize, key);
      SignOfBlocks(|key.tokens|, blockSize);
    } else {
      assert keys - {key} == keys;
    }
  }

  lemma SignOfBlocks(length: nat, blockSize: nat)
    requires blockSize > 0
    ensures length / blockSize == 0 <==> length < blockSize
  {
  }

  /** A node is in the index exactly when some stored key shares its blocks, and lists those keys. */
  lemma NodeIff(index: Index, keys: set<HostKey>, blockSize: nat, ns: string, tokens: seq<Token>, n: nat)
    requires Indexed(index, keys, blockSize) && 0 < n <= |tokens| / blockSize
    ensures var node := HostNode(ns, Chunks(tokens, blockSize)[..n]);
            && (node in index <==> Shares(keys, blockSize, ns, tokens, n))
            && (node in index ==> index[node] != {} && forall k :: k in index[node] <==> k in keys && Under(k, blockSize, node))
  {
    hide Chunks, Under;
    var node := HostNode(ns, Chunks(tokens, blockSize)[..n]);
    assert forall k :: k in SourcesAt(index, node) <==> k in keys && Under(k, blockSize, node);
    if node in index {
      var sources := index[node];
      var k :| k in sources;
      assert k in SourcesAt(index, node);
    }
  }

  /** An entry that starts with a prompt's tokens holds that prompt's values. */
  lemma EntryReads<V>(kv: (string, seq<Token>) -> V, key: HostKey, payload: Payload<V>, ns: string, tokens: seq<Token>, n: nat)
    requires EntryOk(kv, key, payload) && key.ns == ns && n <= |key.tokens| && n <= |tokens| && key.tokens[..n] == tokens[..n]
    ensures n <= |payload.values| && forall p: nat :: p < n ==> payload.values[p] == kv(ns, tokens[..p + 1])
  {
    forall p: nat | p < n ensures payload.values[p] == kv(ns, tokens[..p + 1]) {
      assert key.tokens[..n][..p + 1] == key.tokens[..p + 1] && tokens[..n][..p + 1] == tokens[..p + 1];
    }
  }

  function PinCount(pins: map<HostKey, nat>, key: HostKey): nat {
    if key in pins then pins[key] else 0
  }
}
