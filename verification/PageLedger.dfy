/** Counting page references two ways: page by page, and owner by owner. */
module PageLedger {
  import opened Basics
  import opened BlockManager
  import opened RadixTree
  import opened PrefixCaching
  import opened PageSharing

  function Sum(counts: seq<nat>): nat {
    if counts == [] then 0 else Sum(counts[..|counts| - 1]) + counts[|counts| - 1]
  }

  lemma {:induction false} SumSplits(f: seq<nat>, g: seq<nat>, h: seq<nat>)
    requires |f| == |g| == |h| && forall b :: 0 <= b < |f| ==> f[b] == g[b] + h[b]
    ensures Sum(f) == Sum(g) + Sum(h)
  {
    if f != [] {
      var n := |f| - 1;
      SumSplits(f[..n], g[..n], h[..n]);
    }
  }

  /** Counting the members of a set index by index. */
  lemma {:induction false} SumMembers(f: seq<nat>, s: set<int>)
    requires forall b :: b in s ==> 0 <= b < |f|
    requires forall b :: 0 <= b < |f| ==> f[b] == if b in s then 1 else 0
    ensures Sum(f) == |s|
  {
    if f == [] {
      assert forall b :: b !in s;
    } else {
      var n := |f| - 1;
      SumMembers(f[..n], s - {n});
      if n in s {
        assert s == (s - {n}) + {n};
      } else {
        assert s == s - {n};
      }
    }
  }

  /** Per page, the requests that list it. */
  ghost function Holdings(allocations: Allocations, n: nat): (counts: seq<nat>)
    ensures |counts| == n
  {
    seq(n, b => |Holders(allocations, b)|)
  }

  /** Per page, how often it was lost. */
  ghost function Losses(lost: seq<int>, n: nat): (counts: seq<nat>)
    ensures |counts| == n
  {
    seq(n, b => multiset(lost)[b])
  }

  ghost function Membership(s: set<int>, n: nat): (counts: seq<nat>)
    ensures |counts| == n
  {
    seq(n, b => if b in s then 1 else 0)
  }

  lemma {:induction false} SumLosses(lost: seq<int>, n: nat)
    requires forall b :: b in lost ==> 0 <= b < n
    ensures Sum(Losses(lost, n)) == |lost|
    decreases |lost|
  {
    if lost == [] {
      SumMembers(Losses(lost, n), {});
    } else {
      var m := |lost| - 1;
      var rest, last := lost[..m], lost[m];
      SplitLast(lost);
      forall b | b in rest ensures 0 <= b < n {
        assert b in lost;
      }
      SumLosses(rest, n);
      assert last in lost;
      SumMembers(Membership({last}, n), {last});
      assert multiset(lost) == multiset(rest) + multiset{last};
      SumSplits(Losses(lost, n), Losses(rest, n), Membership({last}, n));
    }
  }

  /** One request accounts for one reference on each page it lists. */
  lemma HoldingsStep(allocations: Allocations, n: nat, r: int)
    requires r in allocations && Distinct(allocations[r].blockIds)
    requires forall b :: b in allocations[r].blockIds ==> 0 <= b < n
    ensures Sum(Holdings(allocations, n)) == Sum(Holdings(allocations - {r}, n)) + |allocations[r].blockIds|
  {
    var ids := allocations[r].blockIds;
    var own := Membership(AsSet(ids), n);
    SumMembers(own, AsSet(ids));
    DistinctSize(ids);
    forall b | 0 <= b < n ensures Holdings(allocations, n)[b] == Holdings(allocations - {r}, n)[b] + own[b] {
      HoldersRemove(allocations, r, b);
    }
    SumSplits(Holdings(allocations, n), Holdings(allocations - {r}, n), own);
  }

  lemma {:induction false} DistinctSize(ids: seq<int>)
    requires Distinct(ids)
    ensures |AsSet(ids)| == |ids|
  {
    if ids == [] {
      assert AsSet(ids) == {};
    } else {
      var n := |ids| - 1;
      SplitLast(ids);
      DistinctSize(ids[..n]);
      assert AsSet(ids) == AsSet(ids[..n]) + {ids[n]};
    }
  }

  lemma NoHoldings(n: nat)
    ensures Sum(Holdings(map[], n)) == 0
  {
    forall b ensures Holders(map[], b) == {} {}
    SumMembers(Holdings(map[], n), {});
  }

  /** A page is held by one node at most, so nodes and pages count the same. */
  lemma {:induction false} OneNodePerPage(t: Tree, ns: CacheNamespace, identity: Identities)
    requires NodesIdentified(t, ns, identity)
    ensures |Pages(t)| == |Cached(t)|
    decreases |Cached(t)|
  {
    if Cached(t) == {} {
      forall b ensures b !in Pages(t) {
        assert forall k :: k in t ==> k !in Cached(t);
      }
    } else {
      var k :| k in Cached(t);
      PagesWithout(t, ns, identity, k);
      CachedWithout(t, k);
      OneNodePerPage(t - {k}, ns, identity);
      assert Pages(t) == Pages(t - {k}) + {t[k].block.value};
    }
  }

  /**
   All references together are those of the requests plus one per page the cache
   counts, whether or not that page can still be found.
   */
  lemma ReferencesAddUp(
    numBlocks: nat, refcounts: seq<nat>, allocations: Allocations, t: Tree, lost: seq<int>, ns: CacheNamespace, identity: Identities)
    requires Conserved(numBlocks, refcounts, allocations, t, lost) && NodesIdentified(t, ns, identity)
    ensures Sum(refcounts) == Sum(Holdings(allocations, numBlocks)) + |Cached(t)| + |lost|
  {
    hide Pages, NodesIdentified, Holders;
    var pages := Membership(Pages(t), numBlocks);
    SumMembers(pages, Pages(t));
    OneNodePerPage(t, ns, identity);
    SumLosses(lost, numBlocks);
    var tree := seq(numBlocks, b requires 0 <= b < numBlocks => pages[b] + Losses(lost, numBlocks)[b]);
    SumSplits(tree, pages, Losses(lost, numBlocks));
    SumSplits(refcounts, Holdings(allocations, numBlocks), tree);
  }

  // ----- after the last request

  /** With nobody holding anything, everything cached can be reclaimed. */
  lemma UnheldIsReclaimable(t: Tree)
    requires WellFormed(t) && Leased(t, map[])
    ensures Reclaimable(t, {}) == Cached(t)
  {
    forall k | k in t ensures !Blocked(t, {}, k) {
      forall d | d in t ensures t[d].references == 0 {
        assert Through(map[], d) == {};
      }
    }
  }

  /** With no request and no cached node left, exactly the lost pages are still referenced. */
  lemma DrainedPages(numBlocks: nat, free: seq<int>, refcounts: seq<nat>, t: Tree, lost: seq<int>)
    requires FreeList(numBlocks, free, refcounts)
    requires Conserved(numBlocks, refcounts, map[], t, lost) && Cached(t) == {}
    ensures forall b :: 0 <= b < numBlocks ==> (b in free <==> b !in lost)
    ensures |free| == numBlocks <==> lost == []
  {
    FreeUnlessLost(numBlocks, free, refcounts, t, lost);
    AllFree(numBlocks, free, lost);
  }

  lemma FreeUnlessLost(numBlocks: nat, free: seq<int>, refcounts: seq<nat>, t: Tree, lost: seq<int>)
    requires FreeList(numBlocks, free, refcounts)
    requires Conserved(numBlocks, refcounts, map[], t, lost) && Cached(t) == {}
    ensures Ascending(free) && forall b :: b in free ==> 0 <= b < numBlocks
    ensures forall b :: 0 <= b < numBlocks ==> (b in free <==> b !in lost)
    ensures forall b :: b in lost ==> 0 <= b < numBlocks
  {
    assert forall k :: BlockAt(t, k).Some? ==> k in Cached(t);
    PagesAre(t);
    forall b | 0 <= b < numBlocks ensures b in free <==> b !in lost {
      assert Holders(map[], b) == {};
      assert multiset(lost)[b] > 0 <==> b in lost;
    }
  }

  lemma AllFree(numBlocks: nat, free: seq<int>, lost: seq<int>)
    requires Ascending(free) && forall b :: b in free ==> 0 <= b < numBlocks
    requires forall b :: 0 <= b < numBlocks ==> (b in free <==> b !in lost)
    requires forall b :: b in lost ==> 0 <= b < numBlocks
    ensures |free| == numBlocks <==> lost == []
  {
    FreeSize(numBlocks, free);
    var all := Range(numBlocks);
    if lost == [] {
      assert AsSet(free) == all;
    } else {
      assert lost[0] in lost;
      assert AsSet(free) <= all - {lost[0]};
      Smaller(AsSet(free), all - {lost[0]});
    }
  }

  lemma FreeSize(numBlocks: nat, free: seq<int>)
    requires Ascending(free)
    ensures |AsSet(free)| == |free|
  {
    DistinctSize(free);
  }

  ghost function Range(n: nat): (all: set<int>)
    ensures |all| == n && forall b :: b in all <==> 0 <= b < n
  {
    if n == 0 then {} else Range(n - 1) + {n - 1}
  }
}
