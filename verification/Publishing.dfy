/**
 What an insertion does to the pages the radix tree refers to: it takes over exactly the
 pages it reports as inserted, and gives up exactly those it reports as evicted.
 */
module Publishing {
  import opened Basics
  import opened RadixTree
  import opened PrefixCaching
  import opened PageSharing

  /** The pages an insertion offers are, where known, the pages of its path. */
  ghost predicate Offered(identity: Identities, ins: Insertion) {
    && 0 < |ins.path| <= |ins.blocks|
    && Distinct(ins.blocks)
    && forall i :: 0 <= i < |ins.path| && ins.blocks[i] in identity ==> identity[ins.blocks[i]] == Key(ins.ns, ins.path[..i + 1])
  }

  /** The books of the tree moved by exactly these pages. */
  ghost predicate Moved(t: Tree, lost: seq<int>, t': Tree, lost': seq<int>, inserted: seq<int>, evicted: seq<int>) {
    && Distinct(inserted)
    && Distinct(evicted)
    && AsSet(evicted) <= Pages(t)
    && forall b :: TreeReferences(t', lost', b) ==
         TreeReferences(t, lost, b) + (if b in inserted then 1 else 0) - (if b in evicted then 1 else 0)
  }

  /** Every page in the tree is where it was, or came in with the insertion. */
  ghost predicate NodesCame(t: Tree, t': Tree, ns: CacheNamespace, path: seq<TokenBlock>, blocks: seq<int>) {
    && |path| <= |blocks|
    && forall k :: BlockAt(t', k).Some? ==>
         || BlockAt(t', k) == BlockAt(t, k)
         || (OnPath(k, ns, path) && BlockAt(t, k).None? && BlockAt(t', k) == Some(blocks[|k.path| - 1]))
  }

  lemma GrownPages(t: Tree, ns: CacheNamespace, identity: Identities, path: seq<TokenBlock>)
    requires WellFormed(t) && NodesIdentified(t, ns, identity)
    ensures var grown := Descend(t, ns, path);
            && WellFormed(grown) && NodesIdentified(grown, ns, identity) && Pages(grown) == Pages(t)
            && forall k :: BlockAt(grown, k) == BlockAt(t, k)
  {
    DescendKeeps(t, ns, path);
    SamePages(t, Descend(t, ns, path));
  }

  /** A rejected insertion leaves the tree's pages alone. */
  lemma RejectedMoves(t: Tree, t': Tree, ns: CacheNamespace, identity: Identities, ins: Insertion, lost: seq<int>)
    requires WellFormed(t) && NodesIdentified(t, ns, identity)
    requires Pruned(Descend(t, ns, ins.path), t') && |ins.path| <= |ins.blocks|
    ensures Moved(t, lost, t', lost, [], [])
    ensures NodesCame(t, t', ns, [], ins.blocks)
  {
    GrownPages(t, ns, identity, ins.path);
    SamePages(Descend(t, ns, ins.path), t');
  }

  /** The victims of an insertion's eviction, and what they leave. */
  lemma VictimPages(t: Tree, ns: CacheNamespace, identity: Identities, ins: Insertion, policy: Policy, now: nat, quota: nat, victims: seq<Key>)
    requires WellFormed(t) && NodesIdentified(t, ns, identity) && ins.ns == ns && Offered(identity, ins)
    requires EvictRun(Descend(t, ns, ins.path), PrefixCache.Protected(t, ins), policy, now, quota, victims)
    ensures var grown := Descend(t, ns, ins.path);
            && Reclaimed(t, Without(grown, victims), EvictedIds(grown, victims))
            && NodesIdentified(Without(grown, victims), ns, identity)
            && (forall k :: BlockAt(Without(grown, victims), k).Some? ==> BlockAt(Without(grown, victims), k) == BlockAt(t, k))
            && (forall k :: OnPath(k, ns, ins.path) ==> BlockAt(Without(grown, victims), k) == BlockAt(t, k))
  {
    hide WellFormed, NodesIdentified, Descend, EvictRun, Blocked, PathKeys, OnPath, Pages, ExistingDepth;
    var grown := Descend(t, ns, ins.path);
    GrownPages(t, ns, identity, ins.path);
    var protected := PrefixCache.Protected(t, ins);
    EvictionIsExact(grown, protected, policy, now, quota, victims);
    UnblockedIsUnreferenced(grown, protected, victims);
    TurnsDistinct(grown, protected, policy, now, quota, victims);
    EvictedPages(grown, ns, identity, victims);
    ReclaimedFrom(grown, t, Without(grown, victims), EvictedIds(grown, victims));
    forall k | OnPath(k, ns, ins.path) ensures BlockAt(Without(grown, victims), k) == BlockAt(t, k) {
      if BlockAt(t, k).Some? {
        ExistingIsProtected(t, ins, k);
        assert BlockAt(grown, k).Some?;
      }
    }
  }

  lemma ReclaimedFrom(t: Tree, t': Tree, t'': Tree, ids: seq<int>)
    requires Reclaimed(t, t'', ids) && Pages(t') == Pages(t)
    ensures Reclaimed(t', t'', ids)
  {
  }

  lemma TurnsDistinct(t: Tree, protected: set<Key>, policy: Policy, now: nat, quota: nat, victims: seq<Key>)
    requires WellFormed(t) && EvictRun(t, protected, policy, now, quota, victims)
    ensures Distinct(victims)
  {
    TurnsKeep(t, protected, policy, now, quota, victims);
    MembersDistinct(victims);
  }

  lemma {:induction false} MembersDistinct(victims: seq<Key>)
    ensures |Members(victims)| <= |victims|
    ensures |Members(victims)| == |victims| ==> Distinct(victims)
  {
    if victims == [] {
      assert Members(victims) == {};
    } else {
      var n := |victims| - 1;
      SplitLast(victims);
      MembersDistinct(victims[..n]);
      assert Members(victims) == Members(victims[..n]) + {victims[n]};
    }
  }

  lemma ExistingIsProtected(t: Tree, ins: Insertion, k: Key)
    requires OnPath(k, ins.ns, ins.path) && k in t
    ensures k in PrefixCache.Protected(t, ins)
  {
    var shared := ExistingDepth(t, ins.ns, ins.path);
    PathNode(k, ins.ns, ins.path);
    assert ins.path[..|k.path|] <= ins.path[..shared];
    PathKeysAre(ins.ns, ins.path[..shared]);
  }

  /** The pages an insertion maps were not in the tree. */
  lemma MissingIsNew(t: Tree, ns: CacheNamespace, identity: Identities, ins: Insertion, n: nat, b: int)
    requires NodesIdentified(t, ns, identity) && ins.ns == ns && Offered(identity, ins) && n <= |ins.path|
    requires b in MissingBlocks(t, ns, ins.path[..n], ins.blocks)
    ensures b !in Pages(t) && b in ins.blocks
  {
    var path := ins.path[..n];
    MissingBlocksAre(t, ns, path, ins.blocks);
    var i :| 0 <= i < |path| && ins.blocks[i] == b && BlockAt(t, Key(ns, path[..i + 1])).None?;
    assert path[..i + 1] == ins.path[..i + 1];
    PagesAre(t);
    forall k | BlockAt(t, k).Some? ensures BlockAt(t, k).value != b {
      assert identity[BlockAt(t, k).value] == k;
    }
  }

  lemma PathStep(ns: CacheNamespace, path: seq<TokenBlock>, n: nat, k: Key)
    requires n <= |path| && OnPath(k, ns, path[..n])
    ensures OnPath(k, ns, path)
  {
  }

  /** An admitted insertion moves exactly the pages it reports. */
  lemma AdmittedMoves(
    t: Tree, t': Tree, ns: CacheNamespace, identity: Identities, ins: Insertion, policy: Policy, now: nat, quota: nat,
    victims: seq<Key>, n: nat, f: Filling, lost: seq<int>)
    requires WellFormed(t) && NodesIdentified(t, ns, identity) && ins.ns == ns && Offered(identity, ins)
    requires EvictRun(Descend(t, ns, ins.path), PrefixCache.Protected(t, ins), policy, now, quota, victims)
    requires n <= |ins.path| && f.blocks == ins.blocks
    requires t' == Filled(Without(Descend(t, ns, ins.path), victims), ns, ins.path[..n], f)
    ensures Moved(t, lost, t', lost, MissingBlocks(t, ns, ins.path[..n], ins.blocks), EvictedIds(Descend(t, ns, ins.path), victims))
    ensures NodesCame(t, t', ns, ins.path[..n], ins.blocks)
  {
    hide WellFormed, NodesIdentified, Descend, EvictRun, Pages, Filled, MissingBlocks, Without, BlockAt, EvictedIds, PrefixCache.Protected;
    var grown := Descend(t, ns, ins.path);
    var t2, path := Without(grown, victims), ins.path[..n];
    var inserted, evicted := MissingBlocks(t, ns, path, ins.blocks), EvictedIds(grown, victims);
    VictimPages(t, ns, identity, ins, policy, now, quota, victims);
    FilledPages(t2, ns, path, f);
    MissingDistinct(t, ns, path, ins.blocks);
    forall m | 0 < m <= n ensures BlockAt(t2, Key(ns, path[..m])) == BlockAt(t, Key(ns, path[..m])) {
      PrefixOnPath(ns, ins.path, n, m);
    }
    MissingSame(t2, t, ns, path, ins.blocks);
    forall b | b in inserted ensures b !in Pages(t) {
      MissingIsNew(t, ns, identity, ins, n, b);
    }
    MovedBy(t, t', lost, inserted, evicted);
    forall k | BlockAt(t', k).Some?
      ensures || BlockAt(t', k) == BlockAt(t, k)
              || (OnPath(k, ns, path) && BlockAt(t, k).None? && BlockAt(t', k) == Some(ins.blocks[|k.path| - 1]))
    {
      FilledAt(t2, ns, path, f, k);
      if OnPath(k, ns, path) {
        PathStep(ns, ins.path, n, k);
      }
    }
  }

  lemma PrefixOnPath(ns: CacheNamespace, path: seq<TokenBlock>, n: nat, m: nat)
    requires 0 < m <= n <= |path|
    ensures OnPath(Key(ns, path[..n][..m]), ns, path)
  {
  }

  lemma MovedBy(t: Tree, t': Tree, lost: seq<int>, inserted: seq<int>, evicted: seq<int>)
    requires Distinct(inserted) && Distinct(evicted) && AsSet(evicted) <= Pages(t)
    requires forall b :: b in inserted ==> b !in Pages(t)
    requires Pages(t') == Pages(t) - AsSet(evicted) + AsSet(inserted)
    ensures Moved(t, lost, t', lost, inserted, evicted)
  {
    hide Pages;
    forall b ensures b in evicted <==> b in AsSet(evicted) {}
  }

  /**
     An insertion whose eviction emptied its namespace keeps counting the pages it mapped,
     but no node refers to them any more.
     */
  lemma DroppedMoves(
    t: Tree, ns: CacheNamespace, identity: Identities, ins: Insertion, policy: Policy, now: nat, quota: nat,
    victims: seq<Key>, n: nat, lost: seq<int>)
    requires WellFormed(t) && NodesIdentified(t, ns, identity) && ins.ns == ns && Offered(identity, ins)
    requires EvictRun(Descend(t, ns, ins.path), PrefixCache.Protected(t, ins), policy, now, quota, victims)
    requires n <= |ins.path|
    ensures var grown := Descend(t, ns, ins.path);
            && Moved(t, lost, Without(grown, victims), lost + ins.blocks[..n], ins.blocks[..n], EvictedIds(grown, victims))
            && NodesCame(t, Without(grown, victims), ns, [], ins.blocks)
  {
    hide WellFormed, NodesIdentified, Descend, EvictRun, OnPath, Pages, Without, BlockAt, EvictedIds, PrefixCache.Protected;
    var grown := Descend(t, ns, ins.path);
    var t', inserted, evicted := Without(grown, victims), ins.blocks[..n], EvictedIds(grown, victims);
    VictimPages(t, ns, identity, ins, policy, now, quota, victims);
    MovedToLost(t, t', lost, inserted, evicted);
  }

  lemma MovedToLost(t: Tree, t': Tree, lost: seq<int>, inserted: seq<int>, evicted: seq<int>)
    requires Distinct(inserted) && Distinct(evicted) && AsSet(evicted) <= Pages(t)
    requires Pages(t') == Pages(t) - AsSet(evicted)
    ensures Moved(t, lost, t', lost + inserted, inserted, evicted)
  {
    hide Pages;
    forall b ensures multiset(lost + inserted)[b] == multiset(lost)[b] + if b in inserted then 1 else 0 {
      OnceEach(inserted, b);
    }
    forall b ensures b in evicted <==> b in AsSet(evicted) {}
  }

  lemma NothingMoves(t: Tree, lost: seq<int>)
    ensures Moved(t, lost, t, lost, [], [])
  {
  }

  /** The nodes of the path that an insertion left linked in the index. */
  function Linked(ins: Insertion, run: InsertRun): (path: seq<TokenBlock>)
    ensures path <= ins.path
  {
    if run.Admitted? && !run.rootDropped && run.blocks <= |ins.path| then ins.path[..run.blocks] else []
  }

  /** Whatever an insertion decides, the tree's pages move as its result says. */
  lemma InsertMoves(
    cache: PrefixCache, t: Tree, frequency: map<Key, nat>, now: nat, cached: nat, identity: Identities,
    ins: Insertion, run: InsertRun, m: PrefixMatch, lost: seq<int>, t': Tree, lost': seq<int>)
    requires cache.blockSize > 0 && WellFormed(t) && NodesIdentified(t, ins.ns, identity) && Offered(identity, ins)
    requires cache.InsertOutcome(t, frequency, now, cached, ins, run, m)
    requires run.Rejected? ==> Pruned(Descend(t, ins.ns, ins.path), t') && lost' == lost
    requires run.Admitted? ==>
               && t' == cache.Inserted(t, frequency, now, ins, run)
               && lost' == lost + if run.rootDropped then m.insertedBlockIds else []
    ensures Moved(t, lost, t', lost', m.insertedBlockIds, m.evictedBlockIds)
    ensures NodesCame(t, t', ins.ns, Linked(ins, run), ins.blocks)
    ensures forall b :: b in m.insertedBlockIds ==> b in ins.blocks
  {
    hide WellFormed, NodesIdentified, Descend, EvictRun, Pages, MissingBlocks, Filled, Without, EvictedIds, PrefixCache.Protected, Moved, NodesCame;
    if run.Rejected? {
      RejectedMoves(t, t', ins.ns, identity, ins, lost);
    } else if run.rootDropped {
      DroppedMoves(t, ins.ns, identity, ins, cache.policy, now, run.quota, run.victims, run.blocks, lost);
    } else {
      assert lost + [] == lost;
      var f := cache.FillingOf(ins, run.blocks, cache.Sightings(t, frequency, ins), now + |run.victims|);
      AdmittedMoves(t, t', ins.ns, identity, ins, cache.policy, now, run.quota, run.victims, run.blocks, f, lost);
      forall b | b in m.insertedBlockIds ensures b in ins.blocks {
        MissingIsNew(t, ins.ns, identity, ins, run.blocks, b);
      }
    }
  }

  /** The pages of a sequence that are not among others. */
  function Excluding(ids: seq<int>, others: seq<int>): (rest: seq<int>)
    ensures forall b :: b in rest <==> b in ids && b !in others
    ensures Distinct(ids) ==> Distinct(rest)
  {
    if ids == [] then []
    else
      var n := |ids| - 1;
      assert ids == ids[..n] + [ids[n]];
      Excluding(ids[..n], others) + if ids[n] in others then [] else [ids[n]]
  }
}
