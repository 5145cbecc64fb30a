/**
 Paged keys and values shared by all requests of one worker: the allocator, the prefix
 tree and the physical store together.

 `kv(layer, tokens)` stands for the value the model computes for the last of `tokens`.
 Ghost state says which tokens each request stands for, which of its positions are
 filled, and which path each published page holds.
 */
module PagedKV {
  import opened Basics
  import opened BlockManager
  import opened RadixTree
  import opened PrefixCaching
  import opened TokenPaths
  import opened PageSharing
  import opened Publishing
  import opened PageLedger

  type Matches = map<int, (seq<Token>, PrefixMatch)>

  /** Requests with a prefix match hold exactly the outstanding acquisitions of the tree. */
  ghost predicate LeaseLedger(
    ns: CacheNamespace, blockSize: nat, matches: Matches, leaseOf: map<int, int>, nextLease: nat,
    leases: map<int, Key>, allocations: Allocations)
  {
    && blockSize > 0
    && matches.Keys == leaseOf.Keys
    && matches.Keys <= allocations.Keys
    && (forall r, r' :: r in leaseOf && r' in leaseOf && r != r' ==> leaseOf[r] != leaseOf[r'])
    && (forall r :: r in leaseOf ==> leaseOf[r] in leases && leaseOf[r] < nextLease)
    && (forall l :: l in leases ==> exists r :: r in leaseOf && leaseOf[r] == l)
    && (forall r :: r in matches ==> MatchOf(ns, blockSize, matches[r].0, matches[r].1, leases[leaseOf[r]], allocations[r]))
    && (forall r :: r in allocations && r !in matches ==> allocations[r].prefixBlocks == 0)
  }

  /** A request's recorded match: the pages it starts with, held under path `k`. */
  ghost predicate MatchOf(ns: CacheNamespace, blockSize: nat, tokens: seq<Token>, m: PrefixMatch, k: Key, a: BlockAllocation)
    requires blockSize > 0
  {
    var n := |m.blockIds|;
    && n > 0
    && m.matchedTokens == Times(n, blockSize)
    && n <= |tokens| / blockSize
    && k == Key(ns, Chunks(tokens, blockSize)[..n])
    && a.prefixBlocks == n <= |a.blockIds|
    && a.blockIds[..n] == m.blockIds
  }

  type Filled = map<int, set<(nat, nat)>>

  // ----- what the store must hold

  /** The store by value: the cell of a layer, page and offset. */
  type Cells<V> = map<(int, int, int), V>

  type Model<!V> = (nat, seq<Token>) -> V

  /** A page holds, on every layer, the values of the last block of a path. */
  ghost predicate HoldsPath<V>(cells: Cells<V>, layers: nat, blockSize: nat, kv: Model<V>, b: int, path: seq<TokenBlock>) {
    && path != [] && |path[|path| - 1]| == blockSize
    && forall l, o :: 0 <= l < layers && 0 <= o < blockSize ==>
         (l, b, o) in cells && cells[(l, b, o)] == kv(l, Upto(path, o))
  }

  ghost predicate PagesHold<V>(cells: Cells<V>, layers: nat, blockSize: nat, kv: Model<V>, identity: Identities) {
    forall b :: b in identity ==> HoldsPath(cells, layers, blockSize, kv, b, identity[b].path)
  }

  /** Where the store keeps a position of a request. */
  function CellOf(a: BlockAllocation, blockSize: nat, l: nat, p: nat): (int, int, int)
    requires blockSize > 0 && p / blockSize < |a.blockIds|
  {
    (l, a.blockIds[p / blockSize], p % blockSize)
  }

  /** A filled position reads as the value of the request's own token prefix. */
  ghost predicate Holds<V>(cells: Cells<V>, layers: nat, blockSize: nat, kv: Model<V>, a: BlockAllocation, c: seq<Token>, l: nat, p: nat) {
    && blockSize > 0
    && l < layers && p < |c|
    && p / blockSize < |a.blockIds|
    && CellOf(a, blockSize, l, p) in cells
    && cells[CellOf(a, blockSize, l, p)] == kv(l, c[..p + 1])
  }

  ghost predicate RequestsHold<V>(
    cells: Cells<V>, layers: nat, blockSize: nat, kv: Model<V>, allocations: Allocations, content: Contents, written: Filled)
  {
    && written.Keys == allocations.Keys == content.Keys
    && forall r, l, p :: r in written && (l, p) in written[r] ==>
         Holds(cells, layers, blockSize, kv, allocations[r], content[r], l, p)
  }

  /** Writing a position's value changes no published page. */
  lemma WriteKeepsPages<V>(
    cells: Cells<V>, layers: nat, kv: Model<V>, v: V,
    t: Tree, ns: CacheNamespace, blockSize: nat, allocations: Allocations, content: Contents, identity: Identities, r: int, l: nat, p: nat)
    requires Sharing(t, ns, blockSize, allocations, content, identity) && blockSize > 0
    requires PagesHold(cells, layers, blockSize, kv, identity)
    requires r in allocations && r in content && p < |content[r]| && p / blockSize < |allocations[r].blockIds|
    requires v == kv(l, content[r][..p + 1])
    ensures PagesHold(cells[CellOf(allocations[r], blockSize, l, p) := v], layers, blockSize, kv, identity)
  {
    hide Sharing;
    var cell := CellOf(allocations[r], blockSize, l, p);
    forall b | b in identity ensures HoldsPath(cells[cell := v], layers, blockSize, kv, b, identity[b].path) {
      assert HoldsPath(cells, layers, blockSize, kv, b, identity[b].path);
      var path := identity[b].path;
      if b == cell.1 {
        IdentityCell(t, ns, blockSize, allocations, content, identity, r, p);
      }
      forall l', o | 0 <= l' < layers && 0 <= o < blockSize
        ensures (l', b, o) in cells[cell := v] && cells[cell := v][(l', b, o)] == kv(l', Upto(path, o))
      {
        assert (l', b, o) in cells && cells[(l', b, o)] == kv(l', Upto(path, o));
      }
    }
  }

  /** Writing a position's value changes what no request reads. */
  lemma WriteKeepsRequests<V>(
    cells: Cells<V>, layers: nat, kv: Model<V>, v: V, written: Filled,
    t: Tree, ns: CacheNamespace, blockSize: nat, allocations: Allocations, content: Contents, identity: Identities, r: int, l: nat, p: nat)
    requires Sharing(t, ns, blockSize, allocations, content, identity) && blockSize > 0
    requires RequestsHold(cells, layers, blockSize, kv, allocations, content, written)
    requires r in allocations && p < |content[r]| && p / blockSize < |allocations[r].blockIds| && l < layers
    requires Distinct(allocations[r].blockIds)
    requires v == kv(l, content[r][..p + 1])
    ensures r in written
    ensures RequestsHold(cells[CellOf(allocations[r], blockSize, l, p) := v], layers, blockSize, kv, allocations, content,
                         written[r := written[r] + {(l, p)}])
  {
    hide Sharing;
    var cell := CellOf(allocations[r], blockSize, l, p);
    var written' := written[r := written[r] + {(l, p)}];
    forall r', l', p' | r' in written' && (l', p') in written'[r']
      ensures Holds(cells[cell := v], layers, blockSize, kv, allocations[r'], content[r'], l', p')
    {
      if r' != r || (l', p') != (l, p) {
        assert (l', p') in written[r'];
        assert Holds(cells, layers, blockSize, kv, allocations[r'], content[r'], l', p');
        if CellOf(allocations[r'], blockSize, l', p') == cell {
          SameCell(t, ns, blockSize, allocations, content, identity, r, p, r', p');
        }
      }
    }
  }

  class PagedKVCache<V(0)> {
    const layers: nat
    const ns: CacheNamespace
    const bytesPerBlock: nat
    const manager: KVBlockManager
    const tree: PrefixCache
    const store: array3<V>
    ghost const kv: Model<V>
    var prefixMatches: Matches
    /** The tokens a request's logical length stands for. */
    ghost var content: Contents
    /** The (layer, position) pairs of a request that hold their value. */
    ghost var written: Filled
    /** The path whose values a published page holds. */
    ghost var identity: Identities
    ghost var leaseOf: map<int, int>
    ghost var nextLease: nat

    ghost predicate Shaped() {
      && store.Length0 == layers
      && store.Length1 == manager.numBlocks
      && store.Length2 == manager.blockSize
      && manager.blockSize == tree.blockSize
      && bytesPerBlock > 0
    }

    ghost function Stored(): (cells: Cells<V>)
      reads store
    {
      map l, b, o | 0 <= l < store.Length0 && 0 <= b < store.Length1 && 0 <= o < store.Length2 :: (l, b, o) := store[l, b, o]
    }

    /** The tree and the requests account for every page reference, and share pages soundly. */
    ghost predicate Accounted()
      reads this, manager, tree
    {
      && manager.Valid()
      && tree.Valid()
      && Conserved(manager.numBlocks, manager.refcounts, manager.allocations, tree.nodes, tree.lost)
      && Sharing(tree.nodes, ns, manager.blockSize, manager.allocations, content, identity)
      && LeaseLedger(ns, manager.blockSize, prefixMatches, leaseOf, nextLease, tree.leases, manager.allocations)
    }

    ghost predicate Valid()
      reads this, manager, tree, store
    {
      && Shaped()
      && Accounted()
      && PagesHold(Stored(), layers, manager.blockSize, kv, identity)
      && RequestsHold(Stored(), layers, manager.blockSize, kv, manager.allocations, content, written)
    }

    constructor (
      layers: nat, bytesPerBlock: nat, manager: KVBlockManager, tree: PrefixCache, ns: CacheNamespace, ghost kv: Model<V>)
      requires bytesPerBlock > 0
      requires manager.Valid() && manager.allocations == map[]
      requires forall b :: 0 <= b < manager.numBlocks ==> manager.refcounts[b] == 0
      requires tree.Valid() && tree.nodes == map[] && tree.lost == [] && tree.leases == map[]
      requires manager.blockSize == tree.blockSize
      ensures Valid() && fresh(store)
      ensures this.layers == layers && this.manager == manager && this.tree == tree && this.ns == ns && this.kv == kv
      ensures prefixMatches == map[] && content == map[]
    {
      this.layers := layers;
      this.bytesPerBlock := bytesPerBlock;
      this.manager := manager;
      this.tree := tree;
      this.ns := ns;
      this.kv := kv;
      store := new V[layers, manager.numBlocks, manager.blockSize];
      prefixMatches := map[];
      content := map[];
      written := map[];
      identity := map[];
      leaseOf := map[];
      nextLease := 0;
    }

    // ----- reading

    /** One request's logical sequence, gathered from its pages. */
    method Read(requestId: int, layer: nat, numTokens: Option<int>) returns (r: Result<seq<V>>)
      requires Valid()
      ensures requestId !in manager.allocations && layer < layers ==> r == Err(KeyError)
      ensures r.Ok? <==>
                && layer < layers && requestId in manager.allocations
                && (numTokens.Some? ==> 0 <= numTokens.value <= manager.allocations[requestId].numTokens)
      ensures r.Ok? ==>
                var length := if numTokens.None? then manager.allocations[requestId].numTokens else numTokens.value;
                && |r.value| == length
                && forall p: nat :: p < length && (layer, p) in written[requestId] ==> r.value[p] == kv(layer, content[requestId][..p + 1])
    {
      hide Sharing, LeaseLedger, Conserved, PagesHold, Consistent, WellFormed, Leased, Blocky, Cached, Holds, Stored;
      if layer >= layers {
        return Err(ValueError);
      }
      if requestId !in manager.allocations {
        return Err(KeyError);
      }
      var a := manager.allocations[requestId];
      var length := if numTokens.None? then a.numTokens else numTokens.value;
      if !(0 <= length <= a.numTokens) {
        return Err(ValueError);
      }
      SoundOf(requestId);
      var values := Gather(a, layer, length, content[requestId], written[requestId]);
      r := Ok(values);
    }

    lemma SoundOf(requestId: int)
      requires Accounted() && requestId in manager.allocations
      ensures var a := manager.allocations[requestId];
              && Sound(manager.numBlocks, manager.blockSize, requestId, a)
              && requestId in content && |content[requestId]| == a.numTokens
    {
      hide Conserved, LeaseLedger, NodesIdentified, CommonIdentified, WellFormed, Leased;
    }

    method Gather(a: BlockAllocation, layer: nat, length: nat, ghost c: seq<Token>, ghost filled: set<(nat, nat)>) returns (values: seq<V>)
      requires Shaped() && layer < layers
      requires Sound(manager.numBlocks, manager.blockSize, a.requestId, a) && length <= a.numTokens == |c|
      requires forall l, p :: (l, p) in filled ==> Holds(Stored(), layers, manager.blockSize, kv, a, c, l, p)
      ensures |values| == length
      ensures forall p: nat :: p < length && (layer, p) in filled ==> values[p] == kv(layer, c[..p + 1])
    {
      hide Sound;
      values := [];
      var p: nat := 0;
      while p < length
        invariant p <= length && |values| == p
        invariant forall q: nat :: q < p && (layer, q) in filled ==> values[q] == kv(layer, c[..q + 1])
      {
        CoveredPosition(manager.numBlocks, manager.blockSize, a.requestId, a, p);
        var b := a.blockIds[p / manager.blockSize];
        values := values + [store[layer, b, p % manager.blockSize]];
        p := p + 1;
      }
    }

    // ----- writing

    method StoreAt(l: int, b: int, o: int, v: V)
      requires 0 <= l < store.Length0 && 0 <= b < store.Length1 && 0 <= o < store.Length2
      modifies store
      ensures (l, b, o) in old(Stored()) && Stored() == old(Stored())[(l, b, o) := v]
    {
      store[l, b, o] := v;
    }

    /**
     Stores the value of one position of one request. A request may share the page, but
     then only with readers for which that cell stands for the same tokens, so nobody's
     view changes.
     */
    method WriteCell(requestId: int, layer: nat, p: nat, v: V)
      requires Valid() && requestId in manager.allocations
      requires layer < layers && p < manager.allocations[requestId].numTokens
      requires requestId in content && p < |content[requestId]| && v == kv(layer, content[requestId][..p + 1])
      modifies store, this`written
      ensures Valid()
      ensures requestId in old(written) && written == old(written)[requestId := old(written)[requestId] + {(layer, p)}]
      ensures manager.blockSize > 0 && p / manager.blockSize < |manager.allocations[requestId].blockIds|
      ensures CellOf(manager.allocations[requestId], manager.blockSize, layer, p) in old(Stored())
      ensures Stored() == old(Stored())[CellOf(manager.allocations[requestId], manager.blockSize, layer, p) := v]
    {
      hide Conserved, LeaseLedger, Sharing, Consistent, WellFormed, Leased, Blocky, Cached, Sound, PagesHold, RequestsHold, Stored;
      var a := manager.allocations[requestId];
      SoundOf(requestId);
      SoundDistinct(manager.numBlocks, manager.blockSize, requestId, a);
      CoveredPosition(manager.numBlocks, manager.blockSize, requestId, a, p);
      WriteKeepsPages(Stored(), layers, kv, v, tree.nodes, ns, manager.blockSize, manager.allocations, content, identity, requestId, layer, p);
      WriteKeepsRequests(Stored(), layers, kv, v, written, tree.nodes, ns, manager.blockSize, manager.allocations, content, identity, requestId, layer, p);
      StoreAt(layer, a.blockIds[p / manager.blockSize], p % manager.blockSize, v);
      written := written[requestId := written[requestId] + {(layer, p)}];
    }

    function MatchedTokens(requestId: int): nat
      reads this
    {
      if requestId in prefixMatches then prefixMatches[requestId].1.matchedTokens else 0
    }

    /** The caller computed the model's values for these positions. */
    ghost predicate Computed(requestId: int, layer: nat, positions: seq<int>, values: seq<V>)
      reads this
    {
      && requestId in content
      && |positions| == |values|
      && forall i :: 0 <= i < |positions| && 0 <= positions[i] < |content[requestId]| ==>
           values[i] == kv(layer, content[requestId][..positions[i] + 1])
    }

    /** Stores the values of a request's positions, except those of its shared prefix. */
    method Write(requestId: int, layer: nat, positions: seq<int>, values: seq<V>) returns (r: Result<()>)
      requires Valid()
      requires requestId in manager.allocations && |positions| == |values| ==> Computed(requestId, layer, positions, values)
      modifies store, this`written
      ensures Valid()
      ensures var known := requestId in manager.allocations;
              && (r == Err(KeyError) <==> layer < layers && !known)
              && (r == Err(ValueError) <==> layer >= layers || (known && |positions| != |values|))
              && (r == Err(IndexError) <==>
                    && layer < layers && known && |positions| == |values|
                    && exists i :: 0 <= i < |positions| && !(0 <= positions[i] < manager.allocations[requestId].numTokens))
      ensures r.Err? ==> r.error in {KeyError, ValueError, IndexError} && Stored() == old(Stored()) && written == old(written)
      ensures r.Ok? ==>
                && requestId in old(written)
                && (forall i :: 0 <= i < |positions| ==> 0 <= positions[i])
                && written == old(written)[requestId := old(written)[requestId] + Positions(layer, positions, MatchedTokens(requestId))]
      ensures r.Ok? ==> OnlyWrote(old(Stored()), Stored(), manager.allocations[requestId], manager.blockSize,
                                  Positions(layer, positions, MatchedTokens(requestId)))
    {
      hide Accounted, PagesHold, RequestsHold, Stored, OnlyWrote;
      if layer >= layers {
        return Err(ValueError);
      }
      if requestId !in manager.allocations {
        return Err(KeyError);
      }
      if |positions| != |values| {
        return Err(ValueError);
      }
      var a := manager.allocations[requestId];
      if exists i :: 0 <= i < |positions| && !(0 <= positions[i] < a.numTokens) {
        return Err(IndexError);
      }
      SoundOf(requestId);
      WriteAll(requestId, layer, positions, values);
      r := Ok(());
    }

    method WriteAll(requestId: int, layer: nat, positions: seq<int>, values: seq<V>)
      requires Valid() && requestId in manager.allocations && layer < layers
      requires Computed(requestId, layer, positions, values)
      requires |content[requestId]| == manager.allocations[requestId].numTokens
      requires forall i :: 0 <= i < |positions| ==> 0 <= positions[i] < manager.allocations[requestId].numTokens
      modifies store, this`written
      ensures Valid()
      ensures requestId in old(written)
      ensures written == old(written)[requestId := old(written)[requestId] + Positions(layer, positions, MatchedTokens(requestId))]
      ensures OnlyWrote(old(Stored()), Stored(), manager.allocations[requestId], manager.blockSize,
                        Positions(layer, positions, MatchedTokens(requestId)))
    {
      hide Accounted, PagesHold, RequestsHold, Stored, OnlyWrote;
      var matched := MatchedTokens(requestId);
      ghost var a := manager.allocations[requestId];
      WrittenKnown(requestId);
      WroteNothing(Stored(), a, manager.blockSize);
      assert Positions(layer, positions[..0], matched) == {};
      assert written[requestId] + {} == written[requestId];
      for i := 0 to |positions|
        invariant Valid() && requestId in written
        invariant written == old(written)[requestId := old(written)[requestId] + Positions(layer, positions[..i], matched)]
        invariant OnlyWrote(old(Stored()), Stored(), a, manager.blockSize, Positions(layer, positions[..i], matched))
      {
        PositionsStep(layer, positions, matched, i);
        ghost var done, all := Positions(layer, positions[..i], matched), Positions(layer, positions[..i + 1], matched);
        if positions[i] >= matched {
          ghost var before := Stored();
          WriteCell(requestId, layer, positions[i], values[i]);
          WroteOneMore(old(Stored()), before, a, manager.blockSize, done, layer, positions[i], values[i]);
          FilledMore(old(written), requestId, done, (layer, positions[i] as nat));
        } else {
          assert all == done;
        }
      }
      assert positions[..|positions|] == positions;
    }

    /** Why a row of a decode batch is refused. */
    function RowError(requestId: int, position: int, tableWidth: nat): Option<Error>
      requires manager.blockSize > 0
      reads this, manager
    {
      if requestId !in manager.allocations then Some(KeyError)
      else if !(0 <= position < manager.allocations[requestId].numTokens) then Some(IndexError)
      else if position < MatchedTokens(requestId) then Some(RuntimeError)
      else if BlocksRequired(position + 1, manager.blockSize) > tableWidth then Some(IndexError)
      else None
    }

    /** A row is good exactly if its position is the request's own, past its shared prefix, on a page the table has room for. */
    lemma RowErrorIs(requestId: int, position: int, tableWidth: nat)
      requires manager.blockSize > 0
      ensures RowError(requestId, position, tableWidth).None? <==>
                && requestId in manager.allocations
                && MatchedTokens(requestId) <= position < manager.allocations[requestId].numTokens
                && position / manager.blockSize < tableWidth
      ensures RowError(requestId, position, tableWidth) == Some(KeyError) <==> requestId !in manager.allocations
      ensures RowError(requestId, position, tableWidth) == Some(RuntimeError) <==>
                && requestId in manager.allocations
                && 0 <= position < Min(MatchedTokens(requestId), manager.allocations[requestId].numTokens)
    {
      if position >= 0 {
        NextPage(position, manager.blockSize);
      }
    }

    /** Why the first bad row of a batch is refused, if there is one. */
    method CheckRows(ids: seq<int>, positions: seq<int>, tableWidth: nat) returns (refused: Option<Error>)
      requires manager.blockSize > 0 && |ids| == |positions|
      ensures refused.None? <==> forall i :: 0 <= i < |ids| ==> RowError(ids[i], positions[i], tableWidth).None?
      ensures refused.None? <==>
                forall i :: 0 <= i < |ids| ==>
                  && ids[i] in manager.allocations
                  && MatchedTokens(ids[i]) <= positions[i] < manager.allocations[ids[i]].numTokens
                  && positions[i] / manager.blockSize < tableWidth
      ensures refused.Some? ==>
                exists i :: 0 <= i < |ids| && RowError(ids[i], positions[i], tableWidth) == refused
                            && forall j :: 0 <= j < i ==> RowError(ids[j], positions[j], tableWidth).None?
    {
      hide RowError;
      for i := 0 to |ids|
        invariant forall j :: 0 <= j < i ==> RowError(ids[j], positions[j], tableWidth).None?
        invariant forall j :: 0 <= j < i ==>
                    && ids[j] in manager.allocations
                    && MatchedTokens(ids[j]) <= positions[j] < manager.allocations[ids[j]].numTokens
                    && positions[j] / manager.blockSize < tableWidth
      {
        refused := RowError(ids[i], positions[i], tableWidth);
        RowErrorIs(ids[i], positions[i], tableWidth);
        if refused.Some? {
          return;
        }
      }
      refused := None;
    }

    /** One position per request; every row is checked before the first cell is written. */
    method WriteDecodeBatch(ids: seq<int>, layer: nat, positions: seq<int>, values: seq<V>, tableWidth: nat) returns (r: Result<()>)
      requires Valid() && manager.blockSize > 0
      requires |ids| == |positions| == |values| ==>
                 forall i :: 0 <= i < |ids| && ids[i] in manager.allocations ==> Computed(ids[i], layer, positions[i..i + 1], values[i..i + 1])
      modifies store, this`written
      ensures Valid()
      ensures r.Ok? <==>
                && |ids| == |positions| == |values|
                && (forall i :: 0 <= i < |ids| ==> RowError(ids[i], positions[i], tableWidth).None?)
                && layer < layers
      ensures r.Ok? <==>
                && |ids| == |positions| == |values| && layer < layers
                && forall i :: 0 <= i < |ids| ==>
                     && ids[i] in manager.allocations
                     && MatchedTokens(ids[i]) <= positions[i] < manager.allocations[ids[i]].numTokens
                     && positions[i] / manager.blockSize < tableWidth
      ensures |ids| == |positions| == |values| && r.Err? ==>
                || (layer >= layers && r.error == ValueError && forall i :: 0 <= i < |ids| ==> RowError(ids[i], positions[i], tableWidth).None?)
                || exists i :: 0 <= i < |ids| && RowError(ids[i], positions[i], tableWidth) == Some(r.error)
                            && forall j :: 0 <= j < i ==> RowError(ids[j], positions[j], tableWidth).None?
      ensures r.Err? ==> Stored() == old(Stored()) && written == old(written)
      ensures r.Ok? ==>
                && written.Keys == old(written).Keys
                && forall q, l, p :: q in written ==>
                     ((l, p) in written[q] <==>
                       (l, p) in old(written)[q] || (l == layer && exists i :: 0 <= i < |ids| && ids[i] == q && positions[i] == p))
    {
      hide Accounted, PagesHold, RequestsHold, Stored, OnlyWrote, Positions;
      if !(|ids| == |positions| == |values|) {
        return Err(ValueError);
      }
      var refused := CheckRows(ids, positions, tableWidth);
      if refused.Some? {
        return Err(refused.value);
      }
      if layer >= layers {
        return Err(ValueError);
      }
      for i := 0 to |ids|
        invariant Valid()
        invariant written.Keys == old(written).Keys
        invariant forall q, l, p :: q in written ==>
                     ((l, p) in written[q] <==>
                       (l, p) in old(written)[q] || (l == layer && exists j :: 0 <= j < i && ids[j] == q && positions[j] == p))
      {
        assert RowError(ids[i], positions[i], tableWidth).None?;
        var row := Write(ids[i], layer, positions[i..i + 1], values[i..i + 1]);
        OnePosition(layer, positions[i], MatchedTokens(ids[i]));
        assert positions[i..i + 1] == [positions[i]];
        assert row.Ok?;
      }
      r := Ok(());
    }

    // ----- growing, rolling back and ending a request

    /**
     Room for more tokens of a request. The pages it takes were free: whatever they
     used to hold is forgotten, and nobody else's view changes.
     */
    method ReserveAppend(requestId: int, additional: int, ghost tokens: seq<Token>) returns (r: Result<BlockAllocation>)
      requires Valid() && manager.blockSize > 0
      requires additional >= 0 ==> |tokens| == additional
      modifies manager, this`content, this`identity
      ensures Valid()
      ensures r == Err(ValueError) <==> additional < 0
      ensures r == Err(KeyError) <==> additional >= 0 && requestId !in old(manager.allocations)
      ensures r == Err(MemoryError) <==>
                && additional >= 0 && requestId in old(manager.allocations)
                && ExtraBlocks(old(manager.allocations)[requestId], additional, manager.blockSize) > old(manager.Allocatable())
      ensures r.Err? ==> r.error in {ValueError, KeyError, MemoryError} && unchanged(manager) && content == old(content)
      ensures r.Ok? ==>
                && requestId in old(manager.allocations) && requestId in old(content)
                && r.value.numTokens == old(manager.allocations)[requestId].numTokens + additional
                && old(manager.allocations)[requestId].blockIds <= r.value.blockIds
                && manager.allocations == old(manager.allocations)[requestId := r.value]
                && content == old(content)[requestId := old(content)[requestId] + tokens]
    {
      hide Sharing, LeaseLedger, Conserved, PagesHold, RequestsHold, Consistent, WellFormed, Leased, Blocky, Cached, Stored, GrewAll, ExtraTotal;
      ghost var before, free, refcounts := manager.allocations, manager.free, manager.refcounts;
      OneRequest(before, requestId, additional, manager.blockSize);
      var grown := manager.GrowMany([requestId], additional);
      if grown.Err? {
        return Err(grown.error);
      }
      var a := grown.value[0];
      ghost var taken := free[..ExtraBlocks(before[requestId], additional, manager.blockSize)];
      GrewOne(before, free, requestId, additional, manager.blockSize, manager.allocations, grown.value);
      FreeIsNobodys(manager.numBlocks, manager.blockSize, manager.headroomBlocks, free, refcounts, before, tree.nodes, tree.lost);
      ConservedMoves(manager.numBlocks, refcounts, before, manager.refcounts, manager.allocations, tree.nodes, tree.lost);
      AppendShares(tree.nodes, ns, manager.blockSize, before, content, identity, requestId, tokens, taken);
      AppendHolds(Stored(), layers, manager.blockSize, kv, before, content, written, requestId, tokens, taken);
      PagesHoldFewer(Stored(), layers, manager.blockSize, kv, identity, AsSet(taken));
      LedgerGrows(ns, manager.blockSize, prefixMatches, leaseOf, nextLease, tree.leases, before, requestId, a);
      content := content[requestId := content[requestId] + tokens];
      identity := identity - AsSet(taken);
      r := Ok(a);
    }

    /** The request's published pages all lie within its first `n` tokens. */
    ghost predicate PublishedWithin(requestId: int, n: int)
      requires requestId in manager.allocations
      reads this, manager
    {
      var ids := manager.allocations[requestId].blockIds;
      manager.blockSize > 0 && forall i :: 0 <= i < |ids| && ids[i] in identity ==> i < n / manager.blockSize
    }

    /**
     Rolls a request back to a shorter length. Its pages stay reserved, so it must not
     cut into a page it published: later tokens would overwrite what others read.
     */
    method RollBack(requestId: int, numTokens: int) returns (r: Result<BlockAllocation>)
      requires Valid()
      requires requestId in manager.allocations ==> PublishedWithin(requestId, numTokens)
      modifies manager`allocations, this`content, this`written
      ensures Valid()
      ensures r == Err(KeyError) <==> requestId !in old(manager.allocations)
      ensures requestId in old(manager.allocations) ==>
                (r == Err(ValueError) <==> !(0 <= numTokens <= old(manager.allocations)[requestId].numTokens))
      ensures r.Err? ==> r.error in {KeyError, ValueError}
      ensures r.Err? ==> manager.allocations == old(manager.allocations) && content == old(content) && written == old(written)
      ensures r.Ok? ==>
                && 0 <= numTokens && requestId in old(manager.allocations) && requestId in old(content) && requestId in old(written)
                && r.value == old(manager.allocations)[requestId].(numTokens := numTokens)
                && manager.allocations == old(manager.allocations)[requestId := r.value]
                && numTokens <= |old(content)[requestId]|
                && content == old(content)[requestId := old(content)[requestId][..numTokens]]
                && written == old(written)[requestId := Before(old(written)[requestId], numTokens)]
    {
      hide Sharing, LeaseLedger, Conserved, PagesHold, RequestsHold, Consistent, WellFormed, Leased, Blocky, Cached, Stored, SameExternal;
      ghost var before, refcounts := manager.allocations, manager.refcounts;
      if requestId in manager.allocations {
        SoundOf(requestId);
      }
      r := manager.Truncate(requestId, numTokens);
      if r.Err? {
        return;
      }
      ConservedMoves(manager.numBlocks, refcounts, before, manager.refcounts, manager.allocations, tree.nodes, tree.lost);
      SharingTruncate(tree.nodes, ns, manager.blockSize, before, content, identity, requestId, numTokens);
      RollBackHolds(Stored(), layers, manager.blockSize, kv, before, content, written, requestId, numTokens);
      LedgerGrows(ns, manager.blockSize, prefixMatches, leaseOf, nextLease, tree.leases, before, requestId, r.value);
      content := content[requestId := content[requestId][..numTokens]];
      written := written[requestId := Before(written[requestId], numTokens)];
    }

    /** Ends a request: its references and its hold on the matched prefix are given back. */
    method Free(requestId: int)
      requires Valid()
      modifies manager, tree`nodes, tree`leases, this`prefixMatches, this`content, this`written, this`leaseOf
      ensures Valid()
      ensures manager.allocations == old(manager.allocations) - {requestId}
      ensures content == old(content) - {requestId} && written == old(written) - {requestId}
      ensures prefixMatches == old(prefixMatches) - {requestId}
      ensures forall b :: 0 <= b < manager.numBlocks ==>
                manager.refcounts[b] == old(manager.refcounts)[b] - Lists(old(manager.allocations), requestId, b)
      ensures forall k :: BlockAt(tree.nodes, k) == BlockAt(old(tree.nodes), k)
    {
      hide Sharing, LeaseLedger, Conserved, PagesHold, RequestsHold, Consistent, WellFormed, Leased, Blocky, Cached, Stored, SameExternal, Adjusted;
      ghost var before, refcounts, t, leases := manager.allocations, manager.refcounts, tree.nodes, tree.leases;
      manager.Free(requestId);
      ConservedMoves(manager.numBlocks, refcounts, before, manager.refcounts, manager.allocations, t, tree.lost);
      SharingFree(t, ns, manager.blockSize, before, content, identity, requestId);
      FreeHolds(Stored(), layers, manager.blockSize, kv, before, content, written, requestId);
      content, written := content - {requestId}, written - {requestId};
      ReleaseMatch(requestId, before);
    }

    /** The second half of `Free`: the request's acquisition, if it has one, goes back to the tree. */
    method ReleaseMatch(requestId: int, ghost before: Allocations)
      requires Shaped() && manager.Valid() && tree.Valid()
      requires Conserved(manager.numBlocks, manager.refcounts, manager.allocations, tree.nodes, tree.lost)
      requires Sharing(tree.nodes, ns, manager.blockSize, manager.allocations, content, identity)
      requires LeaseLedger(ns, manager.blockSize, prefixMatches, leaseOf, nextLease, tree.leases, before)
      requires manager.allocations == before - {requestId}
      modifies tree`nodes, tree`leases, this`prefixMatches, this`leaseOf
      ensures Accounted()
      ensures prefixMatches == old(prefixMatches) - {requestId}
      ensures forall k :: BlockAt(tree.nodes, k) == BlockAt(old(tree.nodes), k)
    {
      hide Sharing, LeaseLedger, Conserved, Consistent, WellFormed, Leased, Blocky, Cached, Adjusted, Chunks, Sound;
      if requestId in prefixMatches {
        var (tokens, match_) := prefixMatches[requestId];
        ghost var t, leases := tree.nodes, tree.leases;
        LedgerReleases(ns, manager.blockSize, prefixMatches, leaseOf, nextLease, leases, before, requestId);
        ghost var lease := leaseOf[requestId];
        var released := tree.Release(tokens, match_.matchedTokens, ns, lease);
        AdjustedKeeps(t, ns, leases[lease].path, -1);
        TreeMoves(manager.numBlocks, manager.refcounts, manager.allocations, t, tree.nodes, tree.lost, ns, manager.blockSize, content, identity);
        prefixMatches, leaseOf := prefixMatches - {requestId}, leaseOf - {requestId};
      } else {
        LedgerForgets(ns, manager.blockSize, prefixMatches, leaseOf, nextLease, tree.leases, before, requestId);
      }
    }

    // ----- publishing a prefix

    /** On every layer, the positions below `n` are filled. */
    ghost predicate FilledBelow(requestId: int, n: nat)
      reads this
    {
      requestId in written && forall l, p :: 0 <= l < layers && 0 <= p < n ==> (l, p) in written[requestId]
    }

    /** The tree's pages and the allocator's counts moved by exactly what `m` reports. */
    ghost predicate Settled(t: Tree, lost: seq<int>, refcounts: seq<nat>, m: PrefixMatch)
      reads manager, tree
    {
      && Moved(t, lost, tree.nodes, tree.lost, m.insertedBlockIds, m.evictedBlockIds)
      && |refcounts| == |manager.refcounts|
      && forall b :: 0 <= b < |refcounts| ==>
           manager.refcounts[b] + (if b in m.evictedBlockIds then 1 else 0) == refcounts[b] + (if b in m.insertedBlockIds then 1 else 0)
    }

    /** The tree decided an insertion as it should, and holds what that decision left. */
    ghost predicate InsertWent(
      t: Tree, lost: seq<int>, frequency: map<Key, nat>, now: nat, cached: nat, ins: Insertion, run: InsertRun, m: PrefixMatch)
      reads tree
    {
      && tree.blockSize > 0 && |ins.path| <= |ins.blocks|
      && tree.InsertOutcome(t, frequency, now, cached, ins, run, m)
      && (run.Rejected? ==> Pruned(Descend(t, ins.ns, ins.path), tree.nodes))
      && (run.Admitted? ==> tree.nodes == tree.Inserted(t, frequency, now, ins, run))
      && tree.lost == lost + if run.Admitted? && run.rootDropped then m.insertedBlockIds else []
    }

    /**
     Publishes the complete prompt pages of a request in the tree. The tree ends up with
     exactly one reference on each page it reports as inserted and none on those it
     reports as evicted; every other reference is where it was.
     */
    method PublishPrefix(requestId: int, tokens: seq<Token>, recomputeCost: Option<real>) returns (r: Result<PrefixMatch>, ghost run: InsertRun)
      requires Valid() && manager.blockSize > 0
      requires requestId in content ==> tokens <= content[requestId] && FilledBelow(requestId, WholeTokens(|tokens|, manager.blockSize))
      modifies manager`refcounts, manager`free, tree, this`identity
      ensures Valid()
      ensures tree.leases == old(tree.leases)
      ensures r == Err(KeyError) <==> requestId !in manager.allocations
      ensures r == Err(ValueError) <==>
                && requestId in manager.allocations && |tokens| / manager.blockSize > 0
                && recomputeCost.Some? && recomputeCost.value < 0.0
      ensures r.Err? ==> r.error in {KeyError, ValueError}
      ensures r.Err? || |tokens| / manager.blockSize == 0 ==>
                manager.refcounts == old(manager.refcounts) && tree.nodes == old(tree.nodes) && tree.lost == old(tree.lost)
      ensures r.Ok? ==> Settled(old(tree.nodes), old(tree.lost), old(manager.refcounts), r.value)
      ensures r.Ok? && |tokens| / manager.blockSize > 0 ==>
                && |tokens| / manager.blockSize <= |manager.allocations[requestId].blockIds|
                && InsertWent(old(tree.nodes), old(tree.lost), old(tree.frequency), old(tree.clock), old(tree.cachedBlocks),
                              Offer(ns, tokens, manager.allocations[requestId].blockIds, manager.blockSize, recomputeCost, bytesPerBlock),
                              run, r.value)
    {
      hide Sharing, LeaseLedger, Conserved, PagesHold, RequestsHold, Consistent, WellFormed, Leased, Blocky, Cached, Stored, Sound,
           Descend, Moved, Chunks, InsertWent;
      var found := manager.Get(requestId);
      if found.Err? {
        return Err(found.error), Rejected;
      }
      var n := Min(|tokens| / manager.blockSize, |found.value.blockIds|);
      SoundOf(requestId);
      Covers(manager.numBlocks, manager.blockSize, requestId, found.value, |tokens|);
      if n == 0 {
        NothingMoves(tree.nodes, tree.lost);
        return Ok(PrefixMatch(0, [], true, [], [])), Rejected;
      }
      assert found.value.blockIds[..n][..n] == found.value.blockIds[..n];
      r, run := Publish(requestId, found.value.blockIds[..n], tokens, recomputeCost);
    }

    /** The same for a request with at least one complete page. */
    method Publish(requestId: int, blocks: seq<int>, tokens: seq<Token>, recomputeCost: Option<real>)
      returns (r: Result<PrefixMatch>, ghost run: InsertRun)
      requires Valid() && manager.blockSize > 0
      requires requestId in manager.allocations && requestId in content
      requires 0 < |blocks| == |tokens| / manager.blockSize && blocks <= manager.allocations[requestId].blockIds
      requires tokens <= content[requestId] && FilledBelow(requestId, WholeTokens(|tokens|, manager.blockSize))
      modifies manager`refcounts, manager`free, tree, this`identity
      ensures Valid()
      ensures tree.leases == old(tree.leases)
      ensures r == Err(ValueError) <==> recomputeCost.Some? && recomputeCost.value < 0.0
      ensures r.Err? ==> r.error == ValueError
      ensures r.Err? ==> manager.refcounts == old(manager.refcounts) && tree.nodes == old(tree.nodes) && tree.lost == old(tree.lost)
      ensures r.Ok? ==> Settled(old(tree.nodes), old(tree.lost), old(manager.refcounts), r.value)
      ensures r.Ok? ==>
                InsertWent(old(tree.nodes), old(tree.lost), old(tree.frequency), old(tree.clock), old(tree.cachedBlocks),
                           Offer(ns, tokens, blocks, manager.blockSize, recomputeCost, bytesPerBlock), run, r.value)
    {
      hide NodesIdentified, RequestsIdentified, CommonIdentified, LeaseLedger, Conserved, PagesHold, RequestsHold, Consistent, WellFormed,
           Leased, Blocky, Cached, Stored, Sound, Descend, Moved, Chunks, SameExternal, PrefixCache.InsertOutcome, PrefixCache.Inserted,
           NodesCame, Published, Pruned, Offered, Linked, Holders, InsertPath;
      ghost var t, lost, frequency, now, cached, refcounts :=
        tree.nodes, tree.lost, tree.frequency, tree.clock, tree.cachedBlocks, manager.refcounts;
      ghost var ins := Offer(ns, tokens, blocks, manager.blockSize, recomputeCost, bytesPerBlock);
      Offering(requestId, blocks, tokens, recomputeCost);
      r, run := TryInsert(blocks, tokens, recomputeCost, ins);
      if r.Err? {
        return;
      }
      var m := r.value;
      InsertMoves(tree, t, frequency, now, cached, identity, ins, run, m, lost, tree.nodes, tree.lost);
      Settle(blocks, m.insertedBlockIds, m.evictedBlockIds, t, lost, refcounts);
      PublishShares(requestId, ins, run, t);
      identity := Published(identity, t, ns, Linked(ins, run), blocks);
    }

    /** Retains the offered pages and inserts them; if the tree refuses the arguments, lets go of them again. */
    method TryInsert(blocks: seq<int>, tokens: seq<Token>, recomputeCost: Option<real>, ghost ins: Insertion)
      returns (r: Result<PrefixMatch>, ghost run: InsertRun)
      requires Shaped() && manager.Valid() && tree.Valid() && manager.blockSize > 0
      requires Distinct(blocks) && forall b :: b in blocks ==> 0 <= b < manager.numBlocks && manager.refcounts[b] > 0
      requires ins == Insertion(ns, InsertPath(tokens, blocks, manager.blockSize), blocks, recomputeCost, bytesPerBlock)
      requires ins.path != []
      modifies manager`refcounts, manager`free, tree
      ensures manager.Valid() && tree.Valid()
      ensures tree.leases == old(tree.leases)
      ensures r == Err(ValueError) <==> recomputeCost.Some? && recomputeCost.value < 0.0
      ensures r.Err? ==> r.error == ValueError
      ensures r.Err? ==> manager.refcounts == old(manager.refcounts) && tree.nodes == old(tree.nodes) && tree.lost == old(tree.lost)
      ensures r.Ok? ==> |old(manager.refcounts)| == |manager.refcounts| == manager.numBlocks
      ensures r.Ok? ==> forall b :: 0 <= b < manager.numBlocks ==>
                          manager.refcounts[b] == old(manager.refcounts)[b] + if b in blocks then 1 else 0
      ensures r.Ok? ==> InsertWent(old(tree.nodes), old(tree.lost), old(tree.frequency), old(tree.clock), old(tree.cachedBlocks), ins, run, r.value)
    {
      hide WellFormed, Leased, Blocky, Cached, Descend, PrefixCache.InsertOutcome, PrefixCache.Inserted, Pruned, Sound, Holders, Chunks,
           PrefixCache.Quota, PrefixCache.AdmittedOf, PrefixCache.PrunedByPolicy;
      var retained := manager.RetainBlocks(blocks);
      ghost var t, frequency := tree.nodes, tree.frequency;
      r, run := tree.Insert(tokens, blocks, ns, recomputeCost, bytesPerBlock);
      if r.Ok? && run.Rejected? {
        tree.PrunedAnyway(t, frequency, ins, tree.nodes);
      }
      if r.Err? {
        var released := manager.ReleaseBlocks(blocks);
      }
    }

    /** The leading pages of a request can be offered to the tree. */
    lemma Offering(requestId: int, blocks: seq<int>, tokens: seq<Token>, recomputeCost: Option<real>)
      requires Shaped() && Accounted() && manager.blockSize > 0
      requires requestId in manager.allocations && requestId in content
      requires 0 < |blocks| == |tokens| / manager.blockSize && blocks <= manager.allocations[requestId].blockIds
      requires tokens <= content[requestId]
      ensures Distinct(blocks) && forall b :: b in blocks ==> 0 <= b < manager.numBlocks && manager.refcounts[b] > 0
      ensures Distinct(manager.allocations[requestId].blockIds)
      ensures var ins := Offer(ns, tokens, blocks, manager.blockSize, recomputeCost, bytesPerBlock);
              && ins.blocks == blocks && ins.path == InsertPath(tokens, blocks, manager.blockSize) && |ins.path| == |blocks|
              && Offered(identity, ins)
              && |blocks| <= |content[requestId]| / manager.blockSize
              && ins.path == Chunks(content[requestId], manager.blockSize)[..|blocks|]
    {
      hide Conserved, LeaseLedger, WellFormed, Leased, Blocky, Cached, Chunks;
      var a := manager.allocations[requestId];
      SoundOf(requestId);
      ListedIsReferenced(manager.numBlocks, manager.blockSize, manager.headroomBlocks, manager.free, manager.refcounts, manager.allocations);
      forall b | b in blocks ensures b in a.blockIds {}
      OfferedPages(tree.nodes, ns, manager.blockSize, manager.allocations, content, identity, requestId, blocks, tokens, recomputeCost, bytesPerBlock);
    }

    /**
     Drops the references of the pages the tree did not take, then those of the pages
     it gave up.
     */
    method Settle(blocks: seq<int>, inserted: seq<int>, evicted: seq<int>, ghost t: Tree, ghost lost: seq<int>, ghost refcounts: seq<nat>)
      requires manager.Valid()
      requires Conserved(manager.numBlocks, refcounts, manager.allocations, t, lost)
      requires Distinct(blocks) && (forall b :: b in inserted ==> b in blocks) && forall b :: b in blocks ==> 0 <= b < manager.numBlocks
      requires forall b :: 0 <= b < manager.numBlocks ==> manager.refcounts[b] == refcounts[b] + if b in blocks then 1 else 0
      requires Moved(t, lost, tree.nodes, tree.lost, inserted, evicted)
      modifies manager`refcounts, manager`free
      ensures manager.Valid() && |manager.refcounts| == manager.numBlocks
      ensures Conserved(manager.numBlocks, manager.refcounts, manager.allocations, tree.nodes, tree.lost)
      ensures forall b :: 0 <= b < manager.numBlocks ==>
                manager.refcounts[b] == refcounts[b] + (if b in inserted then 1 else 0) - (if b in evicted then 1 else 0)
    {
      hide Pages, Holders, Sound;
      var notInserted := Excluding(blocks, inserted);
      EvictedIn(t, lost, tree.nodes, tree.lost, inserted, evicted);
      var dropped := manager.ReleaseBlocks(notInserted);
      var reclaimed := manager.ReleaseBlocks(evicted);
      ConservedSettled(manager.numBlocks, refcounts, manager.allocations, t, lost, manager.refcounts, tree.nodes, tree.lost, inserted, evicted);
    }

    /** After an insertion the tree and the requests still share soundly, and new pages hold their path. */
    lemma PublishShares(requestId: int, ins: Insertion, run: InsertRun, t: Tree)
      requires manager.blockSize > 0 && ins.ns == ns && Offered(identity, ins) && |ins.path| == |ins.blocks|
      requires Sharing(t, ns, manager.blockSize, manager.allocations, content, identity)
      requires requestId in manager.allocations && requestId in content && Distinct(manager.allocations[requestId].blockIds)
      requires ins.blocks <= manager.allocations[requestId].blockIds
      requires |ins.path| <= |content[requestId]| / manager.blockSize
      requires ins.path == Chunks(content[requestId], manager.blockSize)[..|ins.path|]
      requires NodesCame(t, tree.nodes, ns, Linked(ins, run), ins.blocks)
      requires FilledBelow(requestId, Times(|ins.path|, manager.blockSize))
      requires PagesHold(Stored(), layers, manager.blockSize, kv, identity)
      requires RequestsHold(Stored(), layers, manager.blockSize, kv, manager.allocations, content, written)
      ensures Sharing(tree.nodes, ns, manager.blockSize, manager.allocations, content, Published(identity, t, ns, Linked(ins, run), ins.blocks))
      ensures PagesHold(Stored(), layers, manager.blockSize, kv, Published(identity, t, ns, Linked(ins, run), ins.blocks))
    {
      hide Sharing, Stored, Chunks, RequestsHold, PagesHold;
      var path := Linked(ins, run);
      assert path == Chunks(content[requestId], manager.blockSize)[..|path|];
      SharingPublish(t, ns, manager.blockSize, manager.allocations, content, identity, requestId, path, ins.blocks, tree.nodes);
      MulMonotone(|path|, |ins.path|, manager.blockSize);
      PublishHolds(Stored(), layers, manager.blockSize, kv, manager.allocations, content, written, identity, t, ns, requestId, path, ins.blocks);
    }

    // ----- admitting a request

    /** The books while an acquisition of `tokens` is on its way to a request. */
    ghost predicate Pending(tokens: seq<Token>, m: PrefixMatch)
      reads this, manager, tree
    {
      var n := |m.blockIds|;
      && Shaped() && manager.blockSize > 0 && manager.Valid() && tree.Valid()
      && Conserved(manager.numBlocks, manager.refcounts, manager.allocations, tree.nodes, tree.lost)
      && Sharing(tree.nodes, ns, manager.blockSize, manager.allocations, content, identity)
      && LeaseLedger(ns, manager.blockSize, prefixMatches, leaseOf, nextLease, tree.leases - {nextLease}, manager.allocations)
      && m.matchedTokens == Times(n, manager.blockSize)
      && n <= |tokens| / manager.blockSize
      && MatchedBlocks(tree.nodes, ns, Chunks(tokens, manager.blockSize)[..n], m.blockIds)
      && (if n > 0 then nextLease in tree.leases && tree.leases[nextLease] == Key(ns, Chunks(tokens, manager.blockSize)[..n])
          else nextLease !in tree.leases)
    }

    /** Looks up and acquires the longest cached prefix. */
    method AcquireMatch(tokens: seq<Token>) returns (m: PrefixMatch)
      requires Shaped() && Accounted() && manager.blockSize > 0
      modifies tree`nodes, tree`clock, tree`leases
      ensures Pending(tokens, m)
      ensures |m.blockIds| == MatchDepth(old(tree.nodes), ns, Chunks(tokens, manager.blockSize))
      ensures m.matchedTokens == Times(|m.blockIds|, manager.blockSize)
      ensures tree.leases - {nextLease} == old(tree.leases)
      ensures forall k :: BlockAt(tree.nodes, k) == BlockAt(old(tree.nodes), k)
      ensures Reclaimable(tree.nodes, {}) ==
              Reclaimable(old(tree.nodes), PathKeys(ns, Chunks(tokens, manager.blockSize)[..MatchDepth(old(tree.nodes), ns, Chunks(tokens, manager.blockSize))]))
    {
      hide Sharing, LeaseLedger, Conserved, Consistent, WellFormed, Leased, Blocky, Cached, Adjusted, Touched, Chunks, MatchDepth, Reclaimable,
           PathKeys;
      ghost var t, leases := tree.nodes, tree.leases;
      FreshLease(ns, manager.blockSize, prefixMatches, leaseOf, nextLease, leases, manager.allocations);
      m := tree.Match(tokens, ns, true, nextLease);
      ghost var path := Chunks(tokens, manager.blockSize)[..|m.blockIds|];
      TouchedKeeps(t, ns, path, old(tree.clock));
      AdjustedKeeps(Touched(t, ns, path, old(tree.clock)), ns, path, 1);
      TreeMoves(manager.numBlocks, manager.refcounts, manager.allocations, t, tree.nodes, tree.lost, ns, manager.blockSize, content, identity);
      SameMatch(t, tree.nodes, ns, path, m.blockIds);
      assert tree.leases - {nextLease} == leases;
      AcquiredIsSpared(t, ns, path, old(tree.clock));
    }

    /** Evicts cached pages for a request that is short of free ones. */
    method Reclaim(shortage: nat, ghost tokens: seq<Token>, ghost m: PrefixMatch) returns (ghost evicted: seq<int>)
      requires Pending(tokens, m) && shortage > 0
      modifies manager`refcounts, manager`free, tree`nodes, tree`cachedBlocks, tree`clock
      ensures Pending(tokens, m)
      ensures |evicted| == Min(shortage, |Reclaimable(old(tree.nodes), {})|)
      ensures Reclaimed(old(tree.nodes), tree.nodes, evicted)
      ensures PagesOf(old(tree.nodes), Reclaimable(old(tree.nodes), {}), evicted)
      ensures |manager.free| == |old(manager.free)| + Freed(evicted, old(manager.refcounts))
    {
      hide NodesIdentified, RequestsIdentified, CommonIdentified, LeaseLedger, Consistent, WellFormed, Leased, Blocky, Cached, Chunks,
           Reclaimable, EvictRun, EvictedIds, Without, Reclaimed, Pages, Conserved, MatchedBlocks, Moved, PagesOf;
      ghost var t, refcounts := tree.nodes, manager.refcounts;
      var taken;
      ghost var victims;
      taken, victims := tree.Evict(shortage);
      evicted := taken.value;
      EvictMoves(t, ns, identity, tree.policy, old(tree.clock), shortage, victims, tree.lost);
      EvictedOf(t, {}, tree.policy, old(tree.clock), shortage, victims);
      EvictionKeepsMatch(t, victims, tree.leases, nextLease, ns, Chunks(tokens, manager.blockSize)[..|m.blockIds|], m.blockIds);
      if taken.value != [] {
        ReleaseEvicted(t, taken.value);
      } else {
        NothingEvicted(manager.numBlocks, refcounts, manager.allocations, t, tree.nodes, tree.lost);
      }
    }

    method ReleaseEvicted(ghost t: Tree, evicted: seq<int>)
      requires manager.Valid()
      requires Conserved(manager.numBlocks, manager.refcounts, manager.allocations, t, tree.lost)
      requires Moved(t, tree.lost, tree.nodes, tree.lost, [], evicted)
      modifies manager`refcounts, manager`free
      ensures manager.Valid()
      ensures Conserved(manager.numBlocks, manager.refcounts, manager.allocations, tree.nodes, tree.lost)
      ensures |manager.free| == |old(manager.free)| + Freed(evicted, old(manager.refcounts))
    {
      hide Pages, Holders, Sound;
      ghost var refcounts := manager.refcounts;
      EvictedIn(t, tree.lost, tree.nodes, tree.lost, [], evicted);
      var reclaimed := manager.ReleaseBlocks(evicted);
      ConservedSettled(manager.numBlocks, refcounts, manager.allocations, t, tree.lost, manager.refcounts, tree.nodes, tree.lost, [], evicted);
    }

    /** `Allocate` accepts these arguments, capacity aside. */
    predicate Acceptable(requestId: int, numTokens: int, reservation: int, tokenIds: Option<seq<Token>>)
      reads manager
    {
      && (tokenIds.Some? ==> |tokenIds.value| == numTokens)
      && 0 <= numTokens <= reservation
      && requestId !in manager.allocations
    }

    /** How many blocks of the prompt are cached. */
    ghost function CachedPrefix(tokenIds: Option<seq<Token>>): nat
      requires manager.blockSize > 0
      reads tree
    {
      if tokenIds.None? then 0 else MatchDepth(tree.nodes, ns, Chunks(tokenIds.value, manager.blockSize))
    }

    /** The cached nodes that evictions could reclaim without touching the cached prefix of the prompt. */
    ghost function ReclaimableAround(tokenIds: Option<seq<Token>>): set<Key>
      requires manager.blockSize > 0
      reads tree
    {
      if tokenIds.None? then Reclaimable(tree.nodes, {})
      else Reclaimable(tree.nodes, PathKeys(ns, Chunks(tokenIds.value, manager.blockSize)[..CachedPrefix(tokenIds)]))
    }

    /**
     Admits a request: it starts on the longest cached prefix of its prompt, which it
     need not compute, and takes free pages for the rest. If they are short it evicts as
     many cached pages as it is short of, or all that can be evicted around the prefix;
     that suffices if and only if enough of them are not also held by requests. So where
     nobody but the cache holds them, a request is admitted exactly if the free pages and
     all that can be evicted around its prefix are enough together. When it is refused,
     every request and every acquisition is as before.
     */
    method Allocate(
      requestId: int, numTokens: int, reserveTokens: Option<int>, tokenIds: Option<seq<Token>>, ghost logical: seq<Token>)
      returns (r: Result<BlockAllocation>, ghost evicted: seq<int>)
      requires Valid() && manager.blockSize > 0
      requires numTokens >= 0 ==> |logical| == numTokens
      requires tokenIds.Some? && |tokenIds.value| == numTokens ==> logical == tokenIds.value
      modifies manager, tree`nodes, tree`clock, tree`leases, tree`cachedBlocks
      modifies this`prefixMatches, this`content, this`written, this`identity, this`leaseOf, this`nextLease
      ensures Valid()
      ensures var reservation := if reserveTokens.None? then numTokens else reserveTokens.value;
              var ok := old(Acceptable(requestId, numTokens, reservation, tokenIds));
              var matched := old(CachedPrefix(tokenIds));
              && (r == Err(ValueError) <==> !ok)
              && (r == Err(MemoryError) ==> ok && BlocksRequired(reservation, manager.blockSize) > matched + manager.Allocatable())
              && (r.Err? ==> r.error in {ValueError, MemoryError})
              && (ok && BlocksRequired(reservation, manager.blockSize) <= matched + old(manager.Allocatable()) ==> r.Ok?)
              && (r.Ok? ==>
                    && r.value.numTokens == numTokens && r.value.reservedTokens == reservation && r.value.prefixBlocks == matched
                    && MatchedTokens(requestId) == Times(matched, manager.blockSize)
                    && written == old(written)[requestId := Prefilled(layers, Times(matched, manager.blockSize))])
      ensures var reservation := if reserveTokens.None? then numTokens else reserveTokens.value;
              var matched := old(CachedPrefix(tokenIds));
              reservation < 0 || BlocksRequired(reservation, manager.blockSize) <= matched + old(manager.Allocatable()) ==>
                forall k :: BlockAt(tree.nodes, k) == BlockAt(old(tree.nodes), k)
      ensures var reservation := if reserveTokens.None? then numTokens else reserveTokens.value;
              var matched := old(CachedPrefix(tokenIds));
              var reclaimable := old(ReclaimableAround(tokenIds));
              && (tokenIds.Some? && |tokenIds.value| != numTokens ==> evicted == [])
              && (tokenIds.None? || |tokenIds.value| == numTokens ==>
                    |evicted| == Min(if reservation < 0 then 0
                                     else Max(0, BlocksRequired(reservation, manager.blockSize) - matched - old(manager.Allocatable())),
                                     |reclaimable|))
              && PagesOf(old(tree.nodes), reclaimable, evicted)
              && (r.Ok? <==>
                    && old(Acceptable(requestId, numTokens, reservation, tokenIds))
                    && BlocksRequired(reservation, manager.blockSize) - matched <=
                         Max(0, |old(manager.free)| + Freed(evicted, old(manager.refcounts)) - manager.headroomBlocks))
              && (old(OnlyCached(tree.nodes, reclaimable, manager.allocations, tree.lost)) ==>
                    (r.Ok? <==>
                       && old(Acceptable(requestId, numTokens, reservation, tokenIds))
                       && BlocksRequired(reservation, manager.blockSize) - matched <=
                            Max(0, |old(manager.free)| + |reclaimable| - manager.headroomBlocks)))
      ensures r.Err? ==>
                && manager.allocations == old(manager.allocations) && content == old(content) && written == old(written)
                && prefixMatches == old(prefixMatches) && tree.leases == old(tree.leases)
      ensures r.Ok? ==>
                && manager.allocations == old(manager.allocations)[requestId := r.value]
                && content == old(content)[requestId := logical]
                && forall q :: q in old(prefixMatches) ==> q in prefixMatches && prefixMatches[q] == old(prefixMatches)[q]
    {
      hide Accounted, PagesHold, RequestsHold, Stored, Pending, MatchDepth, Chunks, Reclaimable, PathKeys, Freed,
           PagesOf, OnlyCached, Conserved;
      evicted := [];
      ghost var t, lost, refcounts, allocations := tree.nodes, tree.lost, manager.refcounts, manager.allocations;
      Books();
      if tokenIds.Some? && |tokenIds.value| != numTokens {
        NoPagesOf(tree.nodes);
        return Err(ValueError), [];
      }
      var tokens := if tokenIds.Some? then tokenIds.value else [];
      var m := NO_MATCH;
      if tokenIds.Some? {
        m := AcquireMatch(tokens);
      } else {
        NothingPending();
      }
      ghost var held, reclaimable := tree.nodes, Reclaimable(tree.nodes, {});
      r, evicted := AllocateMatched(requestId, numTokens, reserveTokens, tokens, m, logical);
      PagesOfSame(held, t, reclaimable, evicted);
      if OnlyCached(t, reclaimable, allocations, lost) {
        OnlyCachedIsFreed(manager.numBlocks, refcounts, allocations, t, lost, reclaimable, evicted);
      }
    }

    lemma Books()
      requires Accounted()
      ensures Conserved(manager.numBlocks, manager.refcounts, manager.allocations, tree.nodes, tree.lost)
      ensures manager.headroomBlocks <= |manager.free|
    {
    }

    /** The same where nothing may be missing. */
    method ReclaimIfShort(shortage: nat, ghost tokens: seq<Token>, ghost m: PrefixMatch) returns (ghost evicted: seq<int>)
      requires Pending(tokens, m)
      modifies manager`refcounts, manager`free, tree`nodes, tree`cachedBlocks, tree`clock
      ensures Pending(tokens, m)
      ensures |evicted| == Min(shortage, |Reclaimable(old(tree.nodes), {})|)
      ensures PagesOf(old(tree.nodes), Reclaimable(old(tree.nodes), {}), evicted)
      ensures |manager.free| == |old(manager.free)| + Freed(evicted, old(manager.refcounts))
      ensures shortage == 0 ==> forall k :: BlockAt(tree.nodes, k) == BlockAt(old(tree.nodes), k)
    {
      hide Pending, Reclaimable, Freed, Reclaimed, PagesOf;
      evicted := [];
      NoneFreed(manager.refcounts);
      NoPagesOf(tree.nodes);
      if shortage > 0 {
        evicted := Reclaim(shortage, tokens, m);
      }
    }

    /** The rest of `Allocate`, once the prefix is acquired. */
    method AllocateMatched(
      requestId: int, numTokens: int, reserveTokens: Option<int>, tokens: seq<Token>, m: PrefixMatch, ghost logical: seq<Token>)
      returns (r: Result<BlockAllocation>, ghost evicted: seq<int>)
      requires Shaped() && manager.blockSize > 0
      requires Pending(tokens, m)
      requires PagesHold(Stored(), layers, manager.blockSize, kv, identity)
      requires RequestsHold(Stored(), layers, manager.blockSize, kv, manager.allocations, content, written)
      requires numTokens >= 0 ==> |logical| == numTokens
      requires m.blockIds != [] ==> |tokens| == numTokens && logical == tokens
      modifies manager, tree`nodes, tree`clock, tree`leases, tree`cachedBlocks
      modifies this`prefixMatches, this`content, this`written, this`identity, this`leaseOf, this`nextLease
      ensures Valid()
      ensures var reservation := if reserveTokens.None? then numTokens else reserveTokens.value;
              var ok := 0 <= numTokens <= reservation && requestId !in old(manager.allocations);
              var matched := |m.blockIds|;
              && (r == Err(ValueError) <==> !ok)
              && (r == Err(MemoryError) ==> ok && BlocksRequired(reservation, manager.blockSize) > matched + manager.Allocatable())
              && (r.Err? ==> r.error in {ValueError, MemoryError})
              && (ok && BlocksRequired(reservation, manager.blockSize) <= matched + old(manager.Allocatable()) ==> r.Ok?)
              && (r.Ok? ==>
                    && r.value.numTokens == numTokens && r.value.reservedTokens == reservation && r.value.prefixBlocks == matched
                    && MatchedTokens(requestId) == m.matchedTokens
                    && written == old(written)[requestId := Prefilled(layers, m.matchedTokens)])
      ensures var reservation := if reserveTokens.None? then numTokens else reserveTokens.value;
              reservation < 0 || BlocksRequired(reservation, manager.blockSize) <= |m.blockIds| + old(manager.Allocatable()) ==>
                forall k :: BlockAt(tree.nodes, k) == BlockAt(old(tree.nodes), k)
      ensures var reservation := if reserveTokens.None? then numTokens else reserveTokens.value;
              && |evicted| == Min(if reservation < 0 then 0
                                  else Max(0, BlocksRequired(reservation, manager.blockSize) - |m.blockIds| - old(manager.Allocatable())),
                                  |Reclaimable(old(tree.nodes), {})|)
              && PagesOf(old(tree.nodes), Reclaimable(old(tree.nodes), {}), evicted)
              && (r.Ok? <==>
                    && 0 <= numTokens <= reservation && requestId !in old(manager.allocations)
                    && BlocksRequired(reservation, manager.blockSize) - |m.blockIds| <=
                         Max(0, |old(manager.free)| + Freed(evicted, old(manager.refcounts)) - manager.headroomBlocks))
      ensures r.Err? ==>
                && manager.allocations == old(manager.allocations) && content == old(content) && written == old(written)
                && prefixMatches == old(prefixMatches) && tree.leases == old(tree.leases) - {old(nextLease)}
      ensures r.Ok? ==>
                && manager.allocations == old(manager.allocations)[requestId := r.value]
                && content == old(content)[requestId := logical]
                && forall q :: q in old(prefixMatches) ==> q in prefixMatches && prefixMatches[q] == old(prefixMatches)[q]
    {
      hide Accounted, PagesHold, RequestsHold, Stored, Pending, MatchDepth, Chunks, Consistent, Reclaimable, Freed, BlocksRequired, Reclaimed,
           PagesOf;
      var reservation := if reserveTokens.None? then numTokens else reserveTokens.value;
      evicted := [];
      if reservation < 0 {
        NoPagesOf(tree.nodes);
        Withdraw(tokens, m);
        return Err(ValueError), [];
      }
      var newRequired := Max(0, BlocksRequired(reservation, manager.blockSize) - |m.blockIds|);
      var shortage := Max(0, newRequired - manager.Allocatable());
      evicted := ReclaimIfShort(shortage, tokens, m);
      r := Grant(requestId, numTokens, reserveTokens, tokens, m, logical);
      if r.Err? {
        Withdraw(tokens, m);
      }
    }

    lemma NothingPending()
      requires Shaped() && Accounted() && manager.blockSize > 0
      ensures Pending([], NO_MATCH) && tree.leases - {nextLease} == tree.leases
    {
      hide Sharing, Conserved, LeaseLedger, Chunks;
      FreshLease(ns, manager.blockSize, prefixMatches, leaseOf, nextLease, tree.leases, manager.allocations);
      NothingMatched(tree.nodes, ns);
      assert Chunks([], manager.blockSize)[..0] == [];
    }

    /** Gives a pending acquisition back. */
    method Withdraw(tokens: seq<Token>, m: PrefixMatch)
      requires Pending(tokens, m)
      modifies tree`nodes, tree`leases
      ensures Accounted() && tree.leases == old(tree.leases) - {nextLease}
      ensures forall k :: BlockAt(tree.nodes, k) == BlockAt(old(tree.nodes), k)
    {
      hide Sharing, LeaseLedger, Conserved, Consistent, WellFormed, Leased, Blocky, Cached, Adjusted, Chunks, MatchedBlocks;
      ghost var t, n := tree.nodes, |m.blockIds|;
      PageOf(m.matchedTokens, n, 0, manager.blockSize);
      if m.matchedTokens > 0 {
        assert n > 0;
        AdjustedKeeps(t, ns, tree.leases[nextLease].path, -1);
        var released := tree.Release(tokens, m.matchedTokens, ns, nextLease);
        TreeMoves(manager.numBlocks, manager.refcounts, manager.allocations, t, tree.nodes, tree.lost, ns, manager.blockSize, content, identity);
      } else {
        assert n == 0 by {
          if n > 0 {
            MulMonotone(1, n, manager.blockSize);
          }
        }
        assert tree.leases - {nextLease} == tree.leases;
      }
    }

    /** Hands a request its matched pages and free ones, and records the match. */
    method Grant(
      requestId: int, numTokens: int, reserveTokens: Option<int>, tokens: seq<Token>, m: PrefixMatch, ghost logical: seq<Token>)
      returns (r: Result<BlockAllocation>)
      requires Pending(tokens, m)
      requires PagesHold(Stored(), layers, manager.blockSize, kv, identity)
      requires RequestsHold(Stored(), layers, manager.blockSize, kv, manager.allocations, content, written)
      requires numTokens >= 0 ==> |logical| == numTokens
      requires m.blockIds != [] ==> |tokens| == numTokens && logical == tokens
      modifies manager, this`prefixMatches, this`content, this`written, this`identity, this`leaseOf, this`nextLease
      ensures var reservation := if reserveTokens.None? then numTokens else reserveTokens.value;
              var ok := 0 <= numTokens <= reservation && requestId !in old(manager.allocations);
              && (r == Err(ValueError) <==> !ok)
              && (r == Err(MemoryError) <==> ok && BlocksRequired(reservation, manager.blockSize) > |m.blockIds| + old(manager.Allocatable()))
              && (r.Err? ==> r.error in {ValueError, MemoryError})
              && (r.Ok? ==> r.value.numTokens == numTokens && r.value.reservedTokens == reservation && r.value.prefixBlocks == |m.blockIds|)
      ensures r.Err? ==> Pending(tokens, m) && unchanged(manager) && unchanged(this)
      ensures r.Ok? ==>
                && Valid()
                && manager.allocations == old(manager.allocations)[requestId := r.value]
                && content == old(content)[requestId := logical]
                && MatchedTokens(requestId) == m.matchedTokens
                && written == old(written)[requestId := Prefilled(layers, m.matchedTokens)]
                && forall q :: q in old(prefixMatches) ==> q in prefixMatches && prefixMatches[q] == old(prefixMatches)[q]
    {
      hide NodesIdentified, RequestsIdentified, CommonIdentified, LeaseLedger, Conserved, Consistent, WellFormed, Leased, Blocky, Cached,
           Chunks, MatchedBlocks, PagesHold, RequestsHold, Stored, SameExternal, Pages, Unlisted, PageIs, MatchOf;
      ghost var before, free, refcounts := manager.allocations, manager.free, manager.refcounts;
      PrefixPages(tree.nodes, ns, identity, manager.blockSize, tokens, m.blockIds);
      PagesReferenced(manager.numBlocks, refcounts, before, tree.nodes, tree.lost, m.blockIds);
      SignOfQuotient(numTokens, manager.blockSize);
      r := manager.Allocate(requestId, numTokens, reserveTokens, m.blockIds);
      if r.Err? {
        return;
      }
      FreeIsNobodys(manager.numBlocks, manager.blockSize, manager.headroomBlocks, free, refcounts, before, tree.nodes, tree.lost);
      ConservedMoves(manager.numBlocks, refcounts, before, manager.refcounts, manager.allocations, tree.nodes, tree.lost);
      Record(r.value, tokens, m, logical, before, r.value.blockIds[|m.blockIds|..]);
    }

    /** Hands a pending acquisition, if there is one, to the request it was made for. */
    method RecordMatch(a: BlockAllocation, tokens: seq<Token>, m: PrefixMatch, ghost before: Allocations)
      requires manager.blockSize > 0
      requires LeaseLedger(ns, manager.blockSize, prefixMatches, leaseOf, nextLease, tree.leases - {nextLease}, before)
      requires m.matchedTokens == Times(|m.blockIds|, manager.blockSize) && a.prefixBlocks == |m.blockIds| && m.blockIds <= a.blockIds
      requires m.blockIds != [] ==> |m.blockIds| <= |tokens| / manager.blockSize
      requires if m.blockIds != [] then
                 nextLease in tree.leases && tree.leases[nextLease] == Key(ns, Chunks(tokens, manager.blockSize)[..|m.blockIds|])
               else nextLease !in tree.leases
      requires a.requestId !in before
      modifies this`prefixMatches, this`leaseOf, this`nextLease
      ensures LeaseLedger(ns, manager.blockSize, prefixMatches, leaseOf, nextLease, tree.leases, before[a.requestId := a])
      ensures MatchedTokens(a.requestId) == m.matchedTokens
      ensures forall q :: q in old(prefixMatches) ==> q in prefixMatches && prefixMatches[q] == old(prefixMatches)[q]
    {
      hide LeaseLedger, Chunks;
      ghost var ids, bs := m.blockIds, manager.blockSize;
      var r := a.requestId;
      NotYetMatched(ns, bs, prefixMatches, leaseOf, nextLease, tree.leases - {nextLease}, before, r);
      MulMonotone(Min(1, |ids|), |ids|, bs);
      if m.matchedTokens > 0 {
        LedgerAdds(ns, bs, prefixMatches, leaseOf, nextLease, tree.leases, before, r, a, tokens, m);
        prefixMatches, leaseOf, nextLease := prefixMatches[r := (tokens, m)], leaseOf[r := nextLease], nextLease + 1;
      } else {
        LedgerAddsUnmatched(ns, bs, prefixMatches, leaseOf, nextLease, tree.leases, before, r, a);
      }
    }

    /** Records an allocation that was just made, and the match it starts on. */
    method Record(
      a: BlockAllocation, tokens: seq<Token>, m: PrefixMatch,
      ghost logical: seq<Token>, ghost before: Allocations, ghost taken: seq<int>)
      requires Shaped() && manager.blockSize > 0 && manager.Valid() && tree.Valid()
      requires Conserved(manager.numBlocks, manager.refcounts, manager.allocations, tree.nodes, tree.lost)
      requires Sharing(tree.nodes, ns, manager.blockSize, before, content, identity)
      requires LeaseLedger(ns, manager.blockSize, prefixMatches, leaseOf, nextLease, tree.leases - {nextLease}, before)
      requires PagesHold(Stored(), layers, manager.blockSize, kv, identity)
      requires RequestsHold(Stored(), layers, manager.blockSize, kv, before, content, written)
      requires m.matchedTokens == Times(|m.blockIds|, manager.blockSize) && a.prefixBlocks == |m.blockIds|
      requires m.blockIds != [] ==> logical == tokens && |m.blockIds| <= |tokens| / manager.blockSize
      requires if m.blockIds != [] then
                 nextLease in tree.leases && tree.leases[nextLease] == Key(ns, Chunks(tokens, manager.blockSize)[..|m.blockIds|])
               else nextLease !in tree.leases
      requires forall i :: 0 <= i < |m.blockIds| ==>
                 m.blockIds[i] in Pages(tree.nodes) && m.blockIds[i] in identity && PageIs(tokens, i, manager.blockSize, identity[m.blockIds[i]])
      requires a.requestId !in before && manager.allocations == before[a.requestId := a]
      requires a.blockIds == m.blockIds + taken && |logical| == a.numTokens
      requires forall b :: b in taken ==> b !in Pages(tree.nodes) && Unlisted(before, b)
      modifies this`prefixMatches, this`content, this`written, this`identity, this`leaseOf, this`nextLease
      ensures Valid()
      ensures content == old(content)[a.requestId := logical]
      ensures MatchedTokens(a.requestId) == m.matchedTokens
      ensures written == old(written)[a.requestId := Prefilled(layers, m.matchedTokens)]
      ensures forall q :: q in old(prefixMatches) ==> q in prefixMatches && prefixMatches[q] == old(prefixMatches)[q]
    {
      hide Sharing, LeaseLedger, Conserved, Consistent, WellFormed, Leased, Blocky, Cached, Chunks, PagesHold, RequestsHold, Stored,
           Pages, Unlisted, PageIs;
      ghost var r, ids, bs := a.requestId, m.blockIds, manager.blockSize;
      GrantHolds(Stored(), layers, bs, kv, before, content, written, identity, r, ids, a, logical);
      PagesHoldFewer(Stored(), layers, bs, kv, identity, AsSet(taken));
      SharingGrant(tree.nodes, ns, bs, before, content, identity, r, ids, taken, a, logical);
      RecordMatch(a, tokens, m, before);
      content, written := content[r := logical], written[r := Prefilled(layers, m.matchedTokens)];
      identity := identity - AsSet(taken);
    }

    // ----- auditing

    /**
     The worker's own leak check. It compares the allocator's references with the pages
     the requests list and the pages the cache counts, so it always passes: it cannot
     see the pages the cache counts but can no longer reach.
     */
    method Audit() returns (ok: bool)
      requires Valid()
      ensures ok
    {
      hide Sharing, Conserved, PagesHold, RequestsHold, FreeList, WellFormed, Leased, Blocky, Cached, Stored, Holders, Sum, Holdings,
           BlocksRequired;
      ok := manager.Audit();
      var listed := CountListed(manager.numBlocks, manager.blockSize, manager.allocations);
      AddUp();
      ok := ok && Sum(manager.refcounts) == listed + tree.cachedBlocks;
      ok := ok && forall r :: r in prefixMatches.Keys ==>
                    r in manager.allocations && manager.allocations[r].prefixBlocks == |prefixMatches[r].1.blockIds|;
    }

    lemma AddUp()
      requires Accounted()
      ensures Sum(manager.refcounts) == Sum(Holdings(manager.allocations, manager.numBlocks)) + tree.cachedBlocks
      ensures forall r :: r in prefixMatches ==>
                r in manager.allocations && manager.allocations[r].prefixBlocks == |prefixMatches[r].1.blockIds|
    {
      hide Conserved, NodesIdentified, RequestsIdentified, CommonIdentified, Consistent, WellFormed, Leased, Blocky, Cached;
      ReferencesAddUp(manager.numBlocks, manager.refcounts, manager.allocations, tree.nodes, tree.lost, ns, identity);
    }

    /**
     When the last request is gone nothing is acquired any more, so every cached page can
     be evicted; once they are, the pages still in use are exactly the lost ones.
     */
    lemma DrainedIsFree()
      requires Valid() && manager.allocations == map[]
      ensures tree.leases == map[]
      ensures Reclaimable(tree.nodes, {}) == Cached(tree.nodes)
      ensures Cached(tree.nodes) == {} ==>
                && (forall b :: 0 <= b < manager.numBlocks ==> (b in manager.free <==> b !in tree.lost))
                && (|manager.free| == manager.numBlocks <==> tree.lost == [])
    {
      hide Sharing, Conserved, WellFormed, PagesHold, RequestsHold, FreeList, Blocky, Cached, Reclaimable, Leased;
      assert prefixMatches == map[] && leaseOf == map[];
      assert forall l :: l !in tree.leases;
      assert tree.leases == map[];
      UnheldIsReclaimable(tree.nodes);
      if Cached(tree.nodes) == {} {
        DrainedPages(manager.numBlocks, manager.free, manager.refcounts, tree.nodes, tree.lost);
      }
    }

    lemma WrittenKnown(requestId: int)
      requires Valid() && requestId in manager.allocations
      ensures requestId in written && requestId in content && manager.blockSize > 0
      ensures written == written[requestId := written[requestId]]
    {
    }
  }

  /** The (layer, position) pairs past a shared prefix. */
  ghost function Positions(layer: nat, positions: seq<int>, matched: nat): set<(nat, nat)>
    requires forall i :: 0 <= i < |positions| ==> 0 <= positions[i]
  {
    set i | 0 <= i < |positions| && positions[i] >= matched :: (layer, positions[i])
  }

  lemma PositionsStep(layer: nat, positions: seq<int>, matched: nat, i: nat)
    requires i < |positions| && forall i :: 0 <= i < |positions| ==> 0 <= positions[i]
    ensures Positions(layer, positions[..i + 1], matched) ==
            Positions(layer, positions[..i], matched) + if positions[i] >= matched then {(layer, positions[i])} else {}
  {
    var shorter, longer := positions[..i], positions[..i + 1];
    assert forall j :: 0 <= j < i ==> shorter[j] == longer[j];
    assert longer[i] == positions[i];
  }

  /** A prompt that ends with position `p` takes one page more than `p`'s index among its pages. */
  lemma NextPage(p: nat, blockSize: nat)
    requires blockSize > 0
    ensures BlocksRequired(p + 1, blockSize) == p / blockSize + 1
  {
    PageOf(p + blockSize, p / blockSize + 1, p % blockSize, blockSize);
  }

  lemma OnePosition(layer: nat, p: int, matched: nat)
    requires p >= matched
    ensures Positions(layer, [p], matched) == {(layer, p as nat)}
  {
    assert [p][0] == p;
  }

  // ----- what taking pages does to everybody's view

  lemma OneRequest(allocations: Allocations, r: int, additional: int, blockSize: nat)
    ensures Distinct([r]) && forall id :: id in [r] <==> id == r
    ensures blockSize > 0 && additional >= 0 && r in allocations ==>
              (forall id :: id in [r] ==> id in allocations)
              && ExtraTotal(allocations, [r], additional, blockSize) == ExtraBlocks(allocations[r], additional, blockSize)
  {
  }

  lemma GrewOne(
    before: Allocations, free: seq<int>, r: int, additional: nat, blockSize: nat, after: Allocations, results: seq<BlockAllocation>)
    requires GrewAll(before, free, [r], additional, blockSize, 1, after, results) && blockSize > 0
    ensures r in before && |results| == 1
    ensures ExtraBlocks(before[r], additional, blockSize) <= |free|
    ensures results[0] == Grown(before[r], additional, free[..ExtraBlocks(before[r], additional, blockSize)])
    ensures after == before[r := results[0]]
  {
    var ids := [r];
    assert ids[..1] == [r] && ids[..0] == [];
    assert GrewAt(before, free, ids, additional, blockSize, 0, results[0]);
    OneRequest(before, r, additional, blockSize);
    forall id | id in after && id != r ensures after[id] == before[id] {
      assert id !in ids[..1];
    }
  }

  lemma FreeIsNobodys(
    numBlocks: nat, blockSize: nat, headroom: nat, free: seq<int>, refcounts: seq<nat>, allocations: Allocations, t: Tree, lost: seq<int>)
    requires Consistent(numBlocks, blockSize, headroom, free, refcounts, allocations)
    requires Conserved(numBlocks, refcounts, allocations, t, lost)
    ensures forall b :: b in free ==> b !in Pages(t) && Unlisted(allocations, b)
  {
    ListedIsReferenced(numBlocks, blockSize, headroom, free, refcounts, allocations);
    forall b | b in free ensures b !in Pages(t) {
      assert refcounts[b] == 0;
    }
  }

  lemma ConservedMoves(
    numBlocks: nat, refcounts: seq<nat>, allocations: Allocations, refcounts': seq<nat>, allocations': Allocations, t: Tree, lost: seq<int>)
    requires Conserved(numBlocks, refcounts, allocations, t, lost)
    requires SameExternal(numBlocks, refcounts, allocations, refcounts', allocations')
    ensures Conserved(numBlocks, refcounts', allocations', t, lost)
  {
    hide Holders, TreeReferences;
  }

  lemma AppendShares(
    t: Tree, ns: CacheNamespace, blockSize: nat, allocations: Allocations, content: Contents, identity: Identities,
    r: int, tokens: seq<Token>, taken: seq<int>)
    requires Sharing(t, ns, blockSize, allocations, content, identity) && r in allocations
    requires forall b :: b in taken ==> b !in Pages(t) && Unlisted(allocations, b)
    ensures r in content
    ensures Sharing(t, ns, blockSize, allocations[r := Grown(allocations[r], |tokens|, taken)],
                    content[r := content[r] + tokens], identity - AsSet(taken))
  {
    var base := allocations[r].blockIds;
    forall i | 0 <= i < |base| && base[i] in identity ensures PageIs(content[r] + tokens, i, blockSize, identity[base[i]]) {
      PageIsExtend(content[r], tokens, i, blockSize, identity[base[i]]);
    }
    SharingGrant(t, ns, blockSize, allocations, content, identity, r, base, taken,
                 Grown(allocations[r], |tokens|, taken), content[r] + tokens);
  }

  lemma AppendHolds<V>(
    cells: Cells<V>, layers: nat, blockSize: nat, kv: Model<V>, allocations: Allocations, content: Contents, written: Filled,
    r: int, tokens: seq<Token>, taken: seq<int>)
    requires RequestsHold(cells, layers, blockSize, kv, allocations, content, written) && r in allocations
    ensures r in content
    ensures RequestsHold(cells, layers, blockSize, kv, allocations[r := Grown(allocations[r], |tokens|, taken)],
                         content[r := content[r] + tokens], written)
  {
    var a, c := allocations[r], content[r];
    forall l, p | (l, p) in written[r] ensures Holds(cells, layers, blockSize, kv, Grown(a, |tokens|, taken), c + tokens, l, p) {
      assert Holds(cells, layers, blockSize, kv, a, c, l, p);
      assert (c + tokens)[..p + 1] == c[..p + 1];
    }
  }

  lemma PagesHoldFewer<V>(cells: Cells<V>, layers: nat, blockSize: nat, kv: Model<V>, identity: Identities, gone: set<int>)
    requires PagesHold(cells, layers, blockSize, kv, identity)
    ensures PagesHold(cells, layers, blockSize, kv, identity - gone)
  {
  }

  /** A longer allocation still starts with its matched pages. */
  lemma LedgerGrows(
    ns: CacheNamespace, blockSize: nat, matches: Matches, leaseOf: map<int, int>, nextLease: nat,
    leases: map<int, Key>, allocations: Allocations, r: int, a: BlockAllocation)
    requires LeaseLedger(ns, blockSize, matches, leaseOf, nextLease, leases, allocations)
    requires r in allocations && a.prefixBlocks == allocations[r].prefixBlocks && allocations[r].blockIds <= a.blockIds
    ensures LeaseLedger(ns, blockSize, matches, leaseOf, nextLease, leases, allocations[r := a])
  {
    hide Chunks;
    var allocations' := allocations[r := a];
    forall q | q in matches
      ensures MatchOf(ns, blockSize, matches[q].0, matches[q].1, leases[leaseOf[q]], allocations'[q])
    {
      assert MatchOf(ns, blockSize, matches[q].0, matches[q].1, leases[leaseOf[q]], allocations[q]);
    }
  }

  /** The filled positions below a length. */
  ghost function Before(filled: set<(nat, nat)>, n: nat): set<(nat, nat)> {
    set x | x in filled && x.1 < n
  }

  lemma RollBackHolds<V>(
    cells: Cells<V>, layers: nat, blockSize: nat, kv: Model<V>, allocations: Allocations, content: Contents, written: Filled, r: int, n: nat)
    requires RequestsHold(cells, layers, blockSize, kv, allocations, content, written) && r in allocations
    requires r in content && n <= |content[r]|
    ensures r in written
    ensures RequestsHold(cells, layers, blockSize, kv, allocations[r := allocations[r].(numTokens := n)],
                         content[r := content[r][..n]], written[r := Before(written[r], n)])
  {
    var a, c := allocations[r], content[r];
    forall l, p | (l, p) in Before(written[r], n)
      ensures Holds(cells, layers, blockSize, kv, a.(numTokens := n), c[..n], l, p)
    {
      assert Holds(cells, layers, blockSize, kv, a, c, l, p);
      assert c[..n][..p + 1] == c[..p + 1];
    }
  }

  lemma FreeHolds<V>(
    cells: Cells<V>, layers: nat, blockSize: nat, kv: Model<V>, allocations: Allocations, content: Contents, written: Filled, r: int)
    requires RequestsHold(cells, layers, blockSize, kv, allocations, content, written)
    ensures RequestsHold(cells, layers, blockSize, kv, allocations - {r}, content - {r}, written - {r})
  {
  }

  /** The recorded match of a request is an acquisition the tree still holds. */
  lemma LedgerReleases(
    ns: CacheNamespace, blockSize: nat, matches: Matches, leaseOf: map<int, int>, nextLease: nat,
    leases: map<int, Key>, allocations: Allocations, r: int)
    requires LeaseLedger(ns, blockSize, matches, leaseOf, nextLease, leases, allocations) && r in matches
    ensures r in leaseOf && leaseOf[r] in leases
    ensures matches[r].1.matchedTokens % blockSize == 0
    ensures var n := matches[r].1.matchedTokens / blockSize;
            && n <= |matches[r].0| / blockSize
            && leases[leaseOf[r]] == Key(ns, Chunks(matches[r].0, blockSize)[..n])
    ensures LeaseLedger(ns, blockSize, matches - {r}, leaseOf - {r}, nextLease, leases - {leaseOf[r]}, allocations - {r})
  {
    hide Chunks;
    assert MatchOf(ns, blockSize, matches[r].0, matches[r].1, leases[leaseOf[r]], allocations[r]);
    PageOf(matches[r].1.matchedTokens, |matches[r].1.blockIds|, 0, blockSize);
    var leases' := leases - {leaseOf[r]};
    forall l | l in leases' ensures exists q :: q in leaseOf - {r} && (leaseOf - {r})[q] == l {
      var q :| q in leaseOf && leaseOf[q] == l;
      assert q in leaseOf - {r};
    }
  }

  lemma LedgerForgets(
    ns: CacheNamespace, blockSize: nat, matches: Matches, leaseOf: map<int, int>, nextLease: nat,
    leases: map<int, Key>, allocations: Allocations, r: int)
    requires LeaseLedger(ns, blockSize, matches, leaseOf, nextLease, leases, allocations) && r !in matches
    ensures LeaseLedger(ns, blockSize, matches, leaseOf, nextLease, leases, allocations - {r})
    ensures matches - {r} == matches
  {
  }

  /** A tree that kept its pages in place keeps the ledger and the sharing. */
  lemma TreeMoves(
    numBlocks: nat, refcounts: seq<nat>, allocations: Allocations, t: Tree, t': Tree, lost: seq<int>,
    ns: CacheNamespace, blockSize: nat, content: Contents, identity: Identities)
    requires Conserved(numBlocks, refcounts, allocations, t, lost)
    requires Sharing(t, ns, blockSize, allocations, content, identity)
    requires forall k :: BlockAt(t', k) == BlockAt(t, k)
    ensures Conserved(numBlocks, refcounts, allocations, t', lost)
    ensures Sharing(t', ns, blockSize, allocations, content, identity)
  {
    SamePages(t, t');
  }

  // ----- publishing

  /** The tokens on the complete pages of a prompt. */
  function WholeTokens(length: nat, blockSize: nat): nat
    requires blockSize > 0
  {
    Times(length / blockSize, blockSize)
  }

  /** What publishing the complete pages of `tokens` offers the tree. */
  function Offer(ns: CacheNamespace, tokens: seq<Token>, blocks: seq<int>, blockSize: nat, recomputeCost: Option<real>, bytesPerBlock: int): Insertion
    requires blockSize > 0 && |tokens| / blockSize <= |blocks|
  {
    var offered := blocks[..|tokens| / blockSize];
    Insertion(ns, InsertPath(tokens, offered, blockSize), offered, recomputeCost, bytesPerBlock)
  }

  /** A request's pages cover the complete blocks of any part of its content. */
  lemma Covers(numBlocks: nat, blockSize: nat, r: int, a: BlockAllocation, length: nat)
    requires Sound(numBlocks, blockSize, r, a) && length <= a.numTokens
    ensures length / blockSize <= |a.blockIds|
  {
    var required := BlocksRequired(a.reservedTokens, blockSize);
    WholePages(length, blockSize, length / blockSize);
    if required < length / blockSize {
      MulMonotone(required + 1, length / blockSize, blockSize);
    }
  }

  lemma OfferedPath(
    ns: CacheNamespace, tokens: seq<Token>, c: seq<Token>, blocks: seq<int>, blockSize: nat, recomputeCost: Option<real>, bytesPerBlock: int)
    requires blockSize > 0 && |blocks| == |tokens| / blockSize && tokens <= c
    ensures var ins := Offer(ns, tokens, blocks, blockSize, recomputeCost, bytesPerBlock);
            && ins.ns == ns && ins.blocks == blocks && ins.path == InsertPath(tokens, blocks, blockSize) && |ins.path| == |blocks|
            && |blocks| <= |c| / blockSize
            && ins.path == Chunks(c, blockSize)[..|blocks|]
  {
    hide Chunks;
    assert blocks[..|blocks|] == blocks;
    assert c == tokens + c[|tokens|..];
    ChunksExtend(tokens, c[|tokens|..], blockSize);
    assert Chunks(tokens, blockSize)[..|blocks|] == Chunks(tokens, blockSize);
  }

  lemma OfferedPages(
    t: Tree, ns: CacheNamespace, blockSize: nat, allocations: Allocations, content: Contents, identity: Identities,
    r: int, blocks: seq<int>, tokens: seq<Token>, recomputeCost: Option<real>, bytesPerBlock: int)
    requires Sharing(t, ns, blockSize, allocations, content, identity) && blockSize > 0
    requires r in allocations && r in content && 0 < |blocks| == |tokens| / blockSize && blocks <= allocations[r].blockIds
    requires tokens <= content[r] && Distinct(allocations[r].blockIds)
    ensures Distinct(blocks)
    ensures var ins := Offer(ns, tokens, blocks, blockSize, recomputeCost, bytesPerBlock);
            && ins.blocks == blocks && ins.path == InsertPath(tokens, blocks, blockSize) && |ins.path| == |blocks|
            && Offered(identity, ins)
            && |blocks| <= |content[r]| / blockSize
            && ins.path == Chunks(content[r], blockSize)[..|blocks|]
  {
    hide Chunks, CommonIdentified;
    var ins := Offer(ns, tokens, blocks, blockSize, recomputeCost, bytesPerBlock);
    var n := |blocks|;
    OfferedPath(ns, tokens, content[r], blocks, blockSize, recomputeCost, bytesPerBlock);
    forall i | 0 <= i < n && blocks[i] in identity ensures identity[blocks[i]] == Key(ns, ins.path[..i + 1]) {
      assert blocks[i] == allocations[r].blockIds[i];
      assert PageIs(content[r], i, blockSize, identity[allocations[r].blockIds[i]]);
      assert identity[blocks[i]].ns == ns;
      assert ins.path[..i + 1] == Chunks(content[r], blockSize)[..i + 1];
    }
  }

  lemma EvictedIn(t: Tree, lost: seq<int>, t': Tree, lost': seq<int>, inserted: seq<int>, evicted: seq<int>)
    requires Moved(t, lost, t', lost', inserted, evicted)
    ensures forall b :: b in evicted ==> b in Pages(t)
  {
    forall b | b in evicted ensures b in Pages(t) {
      assert b in AsSet(evicted);
    }
  }

  lemma ConservedSettled(
    numBlocks: nat, refcounts: seq<nat>, allocations: Allocations, t: Tree, lost: seq<int>,
    refcounts': seq<nat>, t': Tree, lost': seq<int>, inserted: seq<int>, evicted: seq<int>)
    requires Conserved(numBlocks, refcounts, allocations, t, lost) && Moved(t, lost, t', lost', inserted, evicted)
    requires forall b :: b in inserted ==> 0 <= b < numBlocks
    requires |refcounts'| == numBlocks
    requires forall b :: 0 <= b < numBlocks ==>
               refcounts'[b] == refcounts[b] + (if b in inserted then 1 else 0) - (if b in evicted then 1 else 0)
    ensures Conserved(numBlocks, refcounts', allocations, t', lost')
  {
    hide Pages, Holders;
    forall b | b in Pages(t') || b in lost' ensures 0 <= b < numBlocks {
      assert b in lost' ==> multiset(lost')[b] > 0;
      assert TreeReferences(t', lost', b) > 0;
      assert TreeReferences(t, lost, b) > 0 || b in inserted;
      assert multiset(lost)[b] > 0 ==> b in lost;
    }
  }

  /** Published pages hold their path's values: the request filled them. */
  lemma PublishHolds<V>(
    cells: Cells<V>, layers: nat, blockSize: nat, kv: Model<V>, allocations: Allocations, content: Contents, written: Filled,
    identity: Identities, t: Tree, ns: CacheNamespace, r: int, path: seq<TokenBlock>, blocks: seq<int>)
    requires PagesHold(cells, layers, blockSize, kv, identity)
    requires RequestsHold(cells, layers, blockSize, kv, allocations, content, written)
    requires blockSize > 0 && r in allocations && r in content && |path| <= |blocks| && Distinct(blocks)
    requires blocks <= allocations[r].blockIds
    requires |path| <= |content[r]| / blockSize && path == Chunks(content[r], blockSize)[..|path|]
    requires r in written && forall l, p :: 0 <= l < layers && 0 <= p < Times(|path|, blockSize) ==> (l, p) in written[r]
    ensures PagesHold(cells, layers, blockSize, kv, Published(identity, t, ns, path, blocks))
  {
    hide Chunks, Published, RequestsHold, HoldsPath;
    var identity' := Published(identity, t, ns, path, blocks);
    PublishedAre(identity, t, ns, path, blocks);
    MissingBlocksAre(t, ns, path, blocks);
    forall b | b in identity' ensures HoldsPath(cells, layers, blockSize, kv, b, identity'[b].path) {
      if b in MissingBlocks(t, ns, path, blocks) {
        var i :| 0 <= i < |path| && blocks[i] == b && BlockAt(t, Key(ns, path[..i + 1])).None?;
        assert path[..i + 1] == Chunks(content[r], blockSize)[..i + 1];
        MulMonotone(i + 1, |path|, blockSize);
        FilledPage(cells, layers, blockSize, kv, allocations, content, written, r, i);
      }
    }
  }

  /** A completely filled page of a request holds the values of that request's path. */
  lemma FilledPage<V>(
    cells: Cells<V>, layers: nat, blockSize: nat, kv: Model<V>, allocations: Allocations, content: Contents, written: Filled, r: int, i: nat)
    requires RequestsHold(cells, layers, blockSize, kv, allocations, content, written)
    requires blockSize > 0 && r in allocations && r in content && r in written
    requires i < |content[r]| / blockSize && i < |allocations[r].blockIds|
    requires forall l, p :: 0 <= l < layers && 0 <= p < Times(i + 1, blockSize) ==> (l, p) in written[r]
    ensures HoldsPath(cells, layers, blockSize, kv, allocations[r].blockIds[i], Chunks(content[r], blockSize)[..i + 1])
  {
    hide Chunks, Upto, Times;
    var b, path := allocations[r].blockIds[i], Chunks(content[r], blockSize)[..i + 1];
    UptoChunksAt(content[r], blockSize, i, 0);
    forall l, o | 0 <= l < layers && 0 <= o < blockSize
      ensures o < |path[|path| - 1]| && (l, b, o) in cells && cells[(l, b, o)] == kv(l, Upto(path, o))
    {
      var p := Times(i, blockSize) + o;
      UptoChunksAt(content[r], blockSize, i, o);
      OnePageMore(i, blockSize);
      assert (l, p) in written[r];
      assert Holds(cells, layers, blockSize, kv, allocations[r], content[r], l, p);
    }
  }

  lemma OnePageMore(i: nat, blockSize: nat)
    ensures Times(i + 1, blockSize) == Times(i, blockSize) + blockSize
  {
  }

  lemma UptoChunksAt(tokens: seq<Token>, blockSize: nat, i: nat, o: nat)
    requires blockSize > 0 && i < |tokens| / blockSize && o < blockSize
    ensures var p := Times(i, blockSize) + o;
            var path := Chunks(tokens, blockSize)[..i + 1];
            && p / blockSize == i && p % blockSize == o && p < |tokens|
            && |path[|path| - 1]| == blockSize
            && Upto(path, o) == tokens[..p + 1]
  {
    var p := Times(i, blockSize) + o;
    PageOf(p, i, o, blockSize);
    UptoChunks(tokens, blockSize, p);
  }

  // ----- admitting

  lemma FreshLease(
    ns: CacheNamespace, blockSize: nat, matches: Matches, leaseOf: map<int, int>, nextLease: nat,
    leases: map<int, Key>, allocations: Allocations)
    requires LeaseLedger(ns, blockSize, matches, leaseOf, nextLease, leases, allocations)
    ensures nextLease !in leases && leases - {nextLease} == leases
  {
    hide MatchOf;
  }

  lemma SameMatch(t: Tree, t': Tree, ns: CacheNamespace, path: seq<TokenBlock>, ids: seq<int>)
    requires MatchedBlocks(t, ns, path, ids)
    requires forall k :: BlockAt(t, k).Some? ==> BlockAt(t', k) == BlockAt(t, k)
    ensures MatchedBlocks(t', ns, path, ids)
  {
    forall i | 0 < i <= |path| ensures BlockAt(t', Key(ns, path[..i])) == Some(ids[i - 1]) {
      assert BlockAt(t, Key(ns, path[..i])) == Some(ids[i - 1]);
    }
  }

  /** An eviction gives up exactly the pages it hands back. */
  lemma EvictMoves(t: Tree, ns: CacheNamespace, identity: Identities, policy: Policy, now: nat, quota: nat, victims: seq<Key>, lost: seq<int>)
    requires WellFormed(t) && NodesIdentified(t, ns, identity) && EvictRun(t, {}, policy, now, quota, victims)
    ensures Reclaimed(t, Without(t, victims), EvictedIds(t, victims))
    ensures Moved(t, lost, Without(t, victims), lost, [], EvictedIds(t, victims))
    ensures NodesIdentified(Without(t, victims), ns, identity)
  {
    hide NodesIdentified, Pages, Without, EvictedIds, EvictTurns, WellFormed, Blocked, EvictRun;
    EvictionIsExact(t, {}, policy, now, quota, victims);
    TurnsDistinct(t, {}, policy, now, quota, victims);
    EvictedPages(t, ns, identity, victims);
    MovedBy(t, Without(t, victims), lost, [], EvictedIds(t, victims));
  }

  lemma NothingEvicted(numBlocks: nat, refcounts: seq<nat>, allocations: Allocations, t: Tree, t': Tree, lost: seq<int>)
    requires Conserved(numBlocks, refcounts, allocations, t, lost) && Moved(t, lost, t', lost, [], [])
    ensures Conserved(numBlocks, refcounts, allocations, t', lost)
  {
    ConservedSettled(numBlocks, refcounts, allocations, t, lost, refcounts, t', lost, [], []);
  }

  /** Eviction spares what somebody acquired. */
  lemma EvictionKeepsMatch(
    t: Tree, victims: seq<Key>, leases: map<int, Key>, lease: int, ns: CacheNamespace, path: seq<TokenBlock>, ids: seq<int>)
    requires Leased(t, leases) && MatchedBlocks(t, ns, path, ids)
    requires path != [] ==> lease in leases && leases[lease] == Key(ns, path)
    requires forall v :: v in victims ==> v in t && t[v].references == 0
    ensures MatchedBlocks(Without(t, victims), ns, path, ids)
  {
    forall i | 0 < i <= |path| ensures BlockAt(Without(t, victims), Key(ns, path[..i])) == Some(ids[i - 1]) {
      var k := Key(ns, path[..i]);
      assert BlockAt(t, k) == Some(ids[i - 1]);
      LeasedIsReferenced(t, leases, lease, k);
    }
  }

  /** The positions a matched prefix fills. */
  ghost function Prefilled(layers: nat, n: nat): set<(nat, nat)> {
    set l: nat, p: nat | l < layers && p < n :: (l, p)
  }

  /** The pages of a match are distinct, in the tree, and pages of the prompt itself. */
  lemma PrefixPages(t: Tree, ns: CacheNamespace, identity: Identities, blockSize: nat, tokens: seq<Token>, ids: seq<int>)
    requires NodesIdentified(t, ns, identity) && blockSize > 0
    requires |ids| <= |tokens| / blockSize
    requires MatchedBlocks(t, ns, Chunks(tokens, blockSize)[..|ids|], ids)
    ensures Distinct(ids)
    ensures forall i :: 0 <= i < |ids| ==> ids[i] in Pages(t) && ids[i] in identity && PageIs(tokens, i, blockSize, identity[ids[i]])
  {
    hide Chunks, Pages;
    PagesAre(t);
    var path := Chunks(tokens, blockSize)[..|ids|];
    forall i | 0 <= i < |ids|
      ensures ids[i] in Pages(t) && ids[i] in identity && identity[ids[i]] == Key(ns, path[..i + 1]) && PageIs(tokens, i, blockSize, identity[ids[i]])
    {
      assert BlockAt(t, Key(ns, path[..i + 1])) == Some(ids[i]);
      assert path[..i + 1] == Chunks(tokens, blockSize)[..i + 1];
    }
    forall i, j | 0 <= i < j < |ids| ensures ids[i] != ids[j] {
      assert |identity[ids[i]].path| == i + 1 && |identity[ids[j]].path| == j + 1;
    }
  }

  lemma PagesReferenced(numBlocks: nat, refcounts: seq<nat>, allocations: Allocations, t: Tree, lost: seq<int>, ids: seq<int>)
    requires Conserved(numBlocks, refcounts, allocations, t, lost)
    requires forall i :: 0 <= i < |ids| ==> ids[i] in Pages(t)
    ensures |refcounts| == numBlocks && forall b :: b in ids ==> b in Pages(t) && 0 <= b < numBlocks && refcounts[b] > 0
  {
    hide Pages, Holders;
    forall b | b in ids ensures b in Pages(t) && 0 <= b < numBlocks && refcounts[b] > 0 {
      assert TreeReferences(t, lost, b) > 0;
    }
  }

  lemma SignOfQuotient(n: int, k: nat)
    requires k > 0
    ensures n / k >= 0 <==> n >= 0
  {
  }

  /** A matched prefix already reads as the request's own tokens. */
  lemma GrantHolds<V>(
    cells: Cells<V>, layers: nat, blockSize: nat, kv: Model<V>, allocations: Allocations, content: Contents, written: Filled,
    identity: Identities, r: int, ids: seq<int>, a: BlockAllocation, c: seq<Token>)
    requires RequestsHold(cells, layers, blockSize, kv, allocations, content, written) && r !in allocations
    requires PagesHold(cells, layers, blockSize, kv, identity) && blockSize > 0
    requires ids <= a.blockIds && |ids| <= |c| / blockSize
    requires forall i :: 0 <= i < |ids| ==> ids[i] in identity && PageIs(c, i, blockSize, identity[ids[i]])
    ensures RequestsHold(cells, layers, blockSize, kv, allocations[r := a], content[r := c],
                         written[r := Prefilled(layers, Times(|ids|, blockSize))])
  {
    hide Chunks, HoldsPath, PageIs;
    forall l, p | (l, p) in Prefilled(layers, Times(|ids|, blockSize)) ensures Holds(cells, layers, blockSize, kv, a, c, l, p) {
      PageBelow(p, |ids|, blockSize);
      var b := ids[p / blockSize];
      assert HoldsPath(cells, layers, blockSize, kv, b, identity[b].path);
      PageReads(cells, layers, blockSize, kv, b, identity[b], c, l, p);
    }
  }

  lemma PageReads<V>(
    cells: Cells<V>, layers: nat, blockSize: nat, kv: Model<V>, b: int, k: Key, c: seq<Token>, l: nat, p: nat)
    requires HoldsPath(cells, layers, blockSize, kv, b, k.path) && blockSize > 0 && l < layers
    requires PageIs(c, p / blockSize, blockSize, k)
    ensures p < |c| && (l, b, p % blockSize) in cells && cells[(l, b, p % blockSize)] == kv(l, c[..p + 1])
  {
    hide Chunks, Upto;
    UptoChunks(c, blockSize, p);
  }

  lemma NotYetMatched(
    ns: CacheNamespace, blockSize: nat, matches: Matches, leaseOf: map<int, int>, nextLease: nat,
    leases: map<int, Key>, allocations: Allocations, r: int)
    requires LeaseLedger(ns, blockSize, matches, leaseOf, nextLease, leases, allocations) && r !in allocations
    ensures r !in matches
  {
  }

  /** The request takes the pending acquisition over. */
  lemma LedgerAdds(
    ns: CacheNamespace, blockSize: nat, matches: Matches, leaseOf: map<int, int>, nextLease: nat,
    leases: map<int, Key>, allocations: Allocations, r: int, a: BlockAllocation, tokens: seq<Token>, m: PrefixMatch)
    requires LeaseLedger(ns, blockSize, matches, leaseOf, nextLease, leases - {nextLease}, allocations)
    requires r !in allocations && nextLease in leases
    requires MatchOf(ns, blockSize, tokens, m, leases[nextLease], a)
    ensures LeaseLedger(ns, blockSize, matches[r := (tokens, m)], leaseOf[r := nextLease], nextLease + 1, leases, allocations[r := a])
  {
    hide MatchOf;
    var leaseOf' := leaseOf[r := nextLease];
    forall l | l in leases ensures exists q :: q in leaseOf' && leaseOf'[q] == l {
      if l == nextLease {
        assert leaseOf'[r] == l;
      } else {
        assert l in leases - {nextLease};
        var q :| q in leaseOf && leaseOf[q] == l;
        assert q in leaseOf' && leaseOf'[q] == l;
      }
    }
  }

  lemma LedgerAddsUnmatched(
    ns: CacheNamespace, blockSize: nat, matches: Matches, leaseOf: map<int, int>, nextLease: nat,
    leases: map<int, Key>, allocations: Allocations, r: int, a: BlockAllocation)
    requires LeaseLedger(ns, blockSize, matches, leaseOf, nextLease, leases - {nextLease}, allocations)
    requires r !in allocations && nextLease !in leases && a.prefixBlocks == 0
    ensures LeaseLedger(ns, blockSize, matches, leaseOf, nextLease, leases, allocations[r := a])
  {
    hide MatchOf;
    assert leases - {nextLease} == leases;
  }

  /** Only the cells of some positions of one request changed. */
  ghost predicate OnlyWrote<V>(before: Cells<V>, after: Cells<V>, a: BlockAllocation, blockSize: nat, filled: set<(nat, nat)>) {
    && after.Keys == before.Keys
    && blockSize > 0
    && forall cell :: cell in before && before[cell] != after[cell] ==>
         exists l, p :: (l, p) in filled && p / blockSize < |a.blockIds| && cell == CellOf(a, blockSize, l, p)
  }

  lemma FilledMore(written: Filled, r: int, done: set<(nat, nat)>, x: (nat, nat))
    requires r in written
    ensures written[r := written[r] + done][r := written[r] + done + {x}] == written[r := written[r] + (done + {x})]
  {
    assert written[r] + done + {x} == written[r] + (done + {x});
  }

  lemma WroteNothing<V>(cells: Cells<V>, a: BlockAllocation, blockSize: nat)
    requires blockSize > 0
    ensures OnlyWrote(cells, cells, a, blockSize, {})
  {
  }

  lemma WroteOneMore<V>(start: Cells<V>, cells: Cells<V>, a: BlockAllocation, blockSize: nat, filled: set<(nat, nat)>, l: nat, p: nat, v: V)
    requires OnlyWrote(start, cells, a, blockSize, filled) && p / blockSize < |a.blockIds|
    requires CellOf(a, blockSize, l, p) in cells
    ensures OnlyWrote(start, cells[CellOf(a, blockSize, l, p) := v], a, blockSize, filled + {(l, p)})
  {
  }

  /** All page references the allocations list. */
  method CountListed(numBlocks: nat, blockSize: nat, allocations: Allocations) returns (listed: nat)
    requires forall r :: r in allocations ==> Sound(numBlocks, blockSize, r, allocations[r])
    ensures listed == Sum(Holdings(allocations, numBlocks))
  {
    hide Sum, Holdings;
    var remaining := allocations;
    var todo := set r | r in allocations;
    listed := 0;
    while todo != {}
      invariant remaining.Keys == todo && forall r :: r in remaining ==> r in allocations && remaining[r] == allocations[r]
      invariant Sum(Holdings(remaining, numBlocks)) + listed == Sum(Holdings(allocations, numBlocks))
      decreases todo
    {
      var r :| r in todo;
      HoldingsStep(remaining, numBlocks, r);
      listed := listed + |remaining[r].blockIds|;
      remaining := remaining - {r};
      todo := todo - {r};
    }
    assert remaining == map[];
    NoHoldings(numBlocks);
  }

  lemma SoundDistinct(numBlocks: nat, blockSize: nat, r: int, a: BlockAllocation)
    requires Sound(numBlocks, blockSize, r, a)
    ensures Distinct(a.blockIds) && a.prefixBlocks <= |a.blockIds|
  {
  }

  /** Every logical position of a request lies on one of its pages. */
  lemma CoveredPosition(numBlocks: nat, blockSize: nat, r: int, a: BlockAllocation, p: nat)
    requires Sound(numBlocks, blockSize, r, a) && p < a.numTokens
    ensures blockSize > 0 && p / blockSize < |a.blockIds|
    ensures 0 <= a.blockIds[p / blockSize] < numBlocks
  {
    var required := BlocksRequired(a.reservedTokens, blockSize);
    assert p < Times(required, blockSize);
    PageBelow(p, required, blockSize);
    var b := a.blockIds[p / blockSize];
    assert b in a.blockIds;
  }

  /** Each of these pages is that of one of these nodes. */
  ghost predicate PagesOf(t: Tree, keys: set<Key>, ids: seq<int>) {
    forall b :: b in ids ==> exists k :: k in keys && BlockAt(t, k) == Some(b)
  }

  /** Beside its node nothing refers to the page of any of these nodes. */
  ghost predicate OnlyCached(t: Tree, keys: set<Key>, allocations: Allocations, lost: seq<int>) {
    forall k :: k in keys && BlockAt(t, k).Some? ==> Unlisted(allocations, BlockAt(t, k).value) && BlockAt(t, k).value !in lost
  }

  lemma NoPagesOf(t: Tree)
    ensures forall keys :: PagesOf(t, keys, [])
  {
  }

  lemma PagesOfSame(t: Tree, t': Tree, keys: set<Key>, ids: seq<int>)
    requires PagesOf(t, keys, ids) && forall k :: BlockAt(t', k) == BlockAt(t, k)
    ensures PagesOf(t', keys, ids)
  {
    forall b | b in ids ensures exists k :: k in keys && BlockAt(t', k) == Some(b) {
      var k :| k in keys && BlockAt(t, k) == Some(b);
      assert BlockAt(t', k) == Some(b);
    }
  }

  /** What a run hands back are pages that were reclaimable before it. */
  lemma EvictedOf(t: Tree, protected: set<Key>, policy: Policy, now: nat, quota: nat, victims: seq<Key>)
    requires WellFormed(t) && EvictRun(t, protected, policy, now, quota, victims)
    ensures PagesOf(t, Reclaimable(t, protected), EvictedIds(t, victims))
  {
    TurnsKeep(t, protected, policy, now, quota, victims);
    IdsOfVictims(t, victims);
    forall b | b in EvictedIds(t, victims) ensures exists k :: k in Reclaimable(t, protected) && BlockAt(t, k) == Some(b) {
      var v :| v in victims && BlockAt(t, v) == Some(b);
      assert v in Reclaimable(t, protected);
    }
  }

  lemma {:induction false} IdsOfVictims(t: Tree, victims: seq<Key>)
    ensures forall b :: b in EvictedIds(t, victims) ==> exists v :: v in victims && BlockAt(t, v) == Some(b)
  {
    if victims != [] {
      var n := |victims| - 1;
      IdsOfVictims(t, victims[..n]);
      forall b | b in EvictedIds(t, victims) ensures exists v :: v in victims && BlockAt(t, v) == Some(b) {
        if b in EvictedIds(t, victims[..n]) {
          var v :| v in victims[..n] && BlockAt(t, v) == Some(b);
          assert v in victims;
        } else {
          assert BlockAt(t, victims[n]) == Some(b);
        }
      }
    }
  }

  /** Evicting pages that only the cache refers to frees every one of them. */
  lemma {:induction false} OnlyCachedIsFreed(
    numBlocks: nat, refcounts: seq<nat>, allocations: Allocations, t: Tree, lost: seq<int>, keys: set<Key>, ids: seq<int>)
    requires Conserved(numBlocks, refcounts, allocations, t, lost)
    requires OnlyCached(t, keys, allocations, lost) && PagesOf(t, keys, ids)
    ensures Freed(ids, refcounts) == |ids|
    decreases |ids|
  {
    if ids != [] {
      var n := |ids| - 1;
      var b := ids[n];
      assert PagesOf(t, keys, ids[..n]) by {
        assert forall b :: b in ids[..n] ==> b in ids;
      }
      OnlyCachedIsFreed(numBlocks, refcounts, allocations, t, lost, keys, ids[..n]);
      assert b in ids;
      var k :| k in keys && BlockAt(t, k) == Some(b);
      PagesAre(t);
      forall r | r in allocations ensures b !in allocations[r].blockIds {}
      assert Holders(allocations, b) == {};
      assert multiset(lost)[b] == 0;
    }
  }

  lemma NoneFreed(refcounts: seq<nat>)
    ensures Freed([], refcounts) == 0
  {
  }

  lemma NoPathKeys(ns: CacheNamespace)
    ensures PathKeys(ns, []) == {}
  {
  }

  /** What can be evicted once a prefix is acquired is what can be evicted around it. */
  lemma AcquiredIsSpared(t: Tree, ns: CacheNamespace, path: seq<TokenBlock>, now: nat)
    ensures Reclaimable(Touched(t, ns, path, now), {}) == Reclaimable(t, {})
    ensures Reclaimable(Adjusted(Touched(t, ns, path, now), ns, path, 1), {}) == Reclaimable(t, PathKeys(ns, path))
    ensures path == [] ==> Reclaimable(Touched(t, ns, path, now), {}) == Reclaimable(t, PathKeys(ns, path))
  {
    PathKeysAre(ns, path);
    var touched := Touched(t, ns, path, now);
    var acquired := Adjusted(touched, ns, path, 1);
    SameReclaimable(t, {}, touched, {});
    SameReclaimable(t, PathKeys(ns, path), acquired, {});
    if path == [] {
      NoPathKeys(ns);
    }
  }

  /** Trees with the same pages in which the same nodes are held or protected have the same reclaimable pages. */
  lemma SameReclaimable(t: Tree, protected: set<Key>, t': Tree, protected': set<Key>)
    requires t'.Keys == t.Keys && forall k :: k in t ==> t'[k].block == t[k].block
    requires forall k :: k in t ==> (k in protected || t[k].references > 0 <==> k in protected' || t'[k].references > 0)
    ensures Reclaimable(t', protected') == Reclaimable(t, protected)
  {
    forall k | k in t ensures Blocked(t', protected', k) <==> Blocked(t, protected, k) {
      if Blocked(t, protected, k) {
        var d :| d in t && Below(d, k) && (d in protected || t[d].references > 0);
        assert d in t' && (d in protected' || t'[d].references > 0);
      }
      if Blocked(t', protected', k) {
        var d :| d in t' && Below(d, k) && (d in protected' || t'[d].references > 0);
        assert d in t && (d in protected || t[d].references > 0);
      }
    }
    hide Blocked;
    assert Cached(t') == Cached(t);
  }
}
