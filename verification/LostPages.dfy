/**
 When an insertion loses pages. Its eviction may empty the namespace it inserts into;
 the index then drops that namespace's root, and the insertion goes on mapping pages
 below a root nobody can reach any more.
 */
module LostPages {
  import opened Basics
  import opened RadixTree
  import opened PrefixCaching
  import opened Publishing

  ghost function PagesOf(t: Tree, ns: CacheNamespace): set<Key> {
    set k | k in t && t[k].block.Some? && k.ns == ns
  }

  /**
   Nothing anchors the namespace: the insertion shares no node, nothing in the namespace
   is held, and the pages it needs reclaimed are at least those the namespace has.
   */
  ghost predicate Exposed(t: Tree, ins: Insertion, quota: nat) {
    && ExistingDepth(t, ins.ns, ins.path) == 0
    && quota > 0
    && (forall k :: k in t && k.ns == ins.ns ==> t[k].references == 0)
    && |PagesOf(t, ins.ns)| <= quota
  }

  /** A complete eviction run of this insertion that leaves its namespace without a node. */
  ghost predicate Empties(t: Tree, ins: Insertion, policy: Policy, now: nat, quota: nat, victims: seq<Key>) {
    var grown := Descend(t, ins.ns, ins.path);
    && EvictRun(grown, PrefixCache.Protected(t, ins), policy, now, quota, victims)
    && !HasNamespace(Without(grown, victims), ins.ns)
  }

  /** The nodes of a run that had a page. */
  ghost function WithPage(t: Tree, victims: seq<Key>): set<Key> {
    set v | v in victims && v in t && t[v].block.Some?
  }

  lemma {:induction false} EvictedCount(t: Tree, victims: seq<Key>)
    requires Distinct(victims)
    ensures |EvictedIds(t, victims)| == |WithPage(t, victims)|
  {
    if victims == [] {
      assert WithPage(t, victims) == {};
    } else {
      var n := |victims| - 1;
      SplitLast(victims);
      EvictedCount(t, victims[..n]);
      var v := victims[n];
      assert v !in victims[..n];
      assert WithPage(t, victims) == WithPage(t, victims[..n]) + if v in t && t[v].block.Some? then {v} else {};
    }
  }

  lemma FirstOnPath(t: Tree, ins: Insertion)
    requires WellFormed(t) && ins.path != []
    ensures WellFormed(Descend(t, ins.ns, ins.path))
    ensures HasNamespace(Descend(t, ins.ns, ins.path), ins.ns)
    ensures PagesOf(Descend(t, ins.ns, ins.path), ins.ns) == PagesOf(t, ins.ns)
    ensures ExistingDepth(t, ins.ns, ins.path) > 0 ==>
              exists k :: k in Descend(t, ins.ns, ins.path) && k.ns == ins.ns && k in PrefixCache.Protected(t, ins)
  {
    DescendKeeps(t, ins.ns, ins.path);
    PathKeysAre(ins.ns, ins.path);
    var k := Key(ins.ns, ins.path);
    assert OnPath(k, ins.ns, ins.path);
    assert k in Descend(t, ins.ns, ins.path);
    var shared := ExistingDepth(t, ins.ns, ins.path);
    if shared > 0 {
      PathKeysAre(ins.ns, ins.path[..shared]);
      assert OnPath(Key(ins.ns, ins.path[..shared]), ins.ns, ins.path[..shared]);
    }
    forall x ensures x in PagesOf(Descend(t, ins.ns, ins.path), ins.ns) <==> x in PagesOf(t, ins.ns) {
      assert BlockAt(Descend(t, ins.ns, ins.path), x) == BlockAt(t, x);
    }
  }

  lemma NoQuotaNoVictims(t: Tree, protected: set<Key>, policy: Policy, now: nat, quota: nat, victims: seq<Key>)
    requires EvictRun(t, protected, policy, now, quota, victims)
    ensures quota == 0 ==> victims == [] && Without(t, victims) == t
  {
  }

  /** Only an exposed insertion can empty its namespace, whatever the policy. */
  lemma OnlyExposed(t: Tree, ins: Insertion, policy: Policy, now: nat, quota: nat, victims: seq<Key>)
    requires WellFormed(t) && ins.path != []
    requires Empties(t, ins, policy, now, quota, victims)
    ensures Exposed(t, ins, quota)
  {
    hide Blocked, ExistingDepth, WellFormed, Descend, EvictRun, Reclaimable, PathKeys, EvictedIds;
    var grown, protected := Descend(t, ins.ns, ins.path), PrefixCache.Protected(t, ins);
    FirstOnPath(t, ins);
    EvictionIsExact(grown, protected, policy, now, quota, victims);
    UnblockedIsUnreferenced(grown, protected, victims);
    TurnsDistinct(grown, protected, policy, now, quota, victims);
    NoQuotaNoVictims(grown, protected, policy, now, quota, victims);
    EvictedCount(grown, victims);
    forall k | k in grown && k.ns == ins.ns ensures k in victims && k !in protected {
      assert k !in Without(grown, victims);
    }
    forall k | k in PagesOf(t, ins.ns) ensures k in WithPage(grown, victims) {
      assert k in PagesOf(grown, ins.ns);
    }
    Smaller(PagesOf(t, ins.ns), WithPage(grown, victims));
    DescendKeeps(t, ins.ns, ins.path);
    forall k | k in t && k.ns == ins.ns ensures t[k].references == 0 {
      assert ReferencesAt(grown, k) == ReferencesAt(t, k);
    }
  }

  // ----- a policy that does it

  /** Prefers the nodes of one namespace, those without a page first. */
  function Against(ns: CacheNamespace): Policy {
    Policy(_ => true, (e: PrefixEntry, now: nat) => if e.ns != ns then 2.0 else if e.prefixTokens > 0 then 1.0 else 0.0)
  }

  /** Turns can be taken until the run is complete. */
  lemma {:induction false} RunCompletes(t: Tree, protected: set<Key>, policy: Policy, now: nat, quota: nat, victims: seq<Key>)
    returns (all: seq<Key>)
    requires WellFormed(t) && EvictTurns(t, protected, policy, now, quota, victims)
    ensures EvictRun(t, protected, policy, now, quota, all)
    decreases |t| - |victims|
  {
    hide EvictTurns, Without, EvictedIds, Candidates, WellFormed, Leaf;
    var left := Without(t, victims);
    var candidates := Candidates(left, protected);
    if |EvictedIds(t, victims)| >= quota || candidates == {} {
      all := victims;
    } else {
      CandidatesInTree(left, protected);
      var v := MinimumExists(left, candidates, policy, now + |victims|);
      TurnTaken(t, protected, policy, now, quota, victims, v);
      TurnsAreBounded(t, protected, policy, now, quota, victims + [v]);
      all := RunCompletes(t, protected, policy, now, quota, victims + [v]);
    }
  }

  /** While a namespace without protected or held nodes is not empty, this policy picks from it. */
  lemma PicksFromNamespace(t: Tree, blockSize: nat, ns: CacheNamespace, now: nat, v: Key, k: Key)
    requires WellFormed(t) && Blocky(t, blockSize) && blockSize > 0
    requires forall x :: x in t && x.ns == ns ==> t[x].references == 0
    requires Chosen(t, {}, Against(ns), now, v)
    requires k in t && k.ns == ns
    ensures v in t && v.ns == ns
    ensures t[k].block.None? ==> t[v].block.None?
  {
    assert forall d :: d in t && Below(d, k) ==> t[d].references == 0;
    assert k in Evictable(t, {});
    var leaf := EvictableHasCandidate(t, {}, k);
    assert leaf.ns == ns;
    AncestorIn(t, leaf, |k.path|);
    assert Up(leaf, |k.path|) == k;
    MulMonotone(1, |v.path|, blockSize);
    assert Against(ns).score(Entry(v, t[v]), now) <= Against(ns).score(Entry(leaf, t[leaf]), now);
  }

  lemma StillIn(t: Tree, victims: seq<Key>, k: Key)
    requires victims != [] && k in Without(t, victims)
    ensures k in Without(t, victims[..|victims| - 1])
  {
  }

  /** So as long as the namespace is not empty, every victim came from it. */
  lemma {:induction false} VictimsInNamespace(t: Tree, blockSize: nat, ns: CacheNamespace, now: nat, quota: nat, victims: seq<Key>, k: Key)
    requires WellFormed(t) && Blocky(t, blockSize) && blockSize > 0
    requires forall x :: x in t && x.ns == ns ==> t[x].references == 0
    requires EvictTurns(t, {}, Against(ns), now, quota, victims)
    requires k in Without(t, victims) && k.ns == ns
    ensures forall v :: v in victims ==> v.ns == ns
    decreases |victims|
  {
    hide Blocky, Chosen, WellFormed, Without, EvictedIds, Evictable, Reclaimable;
    if victims != [] {
      var n := |victims| - 1;
      var earlier, v := victims[..n], victims[n];
      SplitLast(victims);
      StillIn(t, victims, k);
      VictimsInNamespace(t, blockSize, ns, now, quota, earlier, k);
      TurnsKeep(t, {}, Against(ns), now, quota, earlier);
      KeysWithout(t, earlier);
      SubtreeBlocky(t, Without(t, earlier), blockSize);
      PicksFromNamespace(Without(t, earlier), blockSize, ns, now + n, v, k);
    }
  }

  /** The last turn of a run that reaches its quota, and the node it took had a page. */
  ghost predicate LastTurnHad(t: Tree, policy: Policy, now: nat, quota: nat, victims: seq<Key>) {
    && victims != []
    && var n := |victims| - 1;
    && EvictTurns(t, {}, policy, now, quota, victims[..n])
    && Chosen(Without(t, victims[..n]), {}, policy, now + n, victims[n])
    && victims[n] in t && t[victims[n]].block.Some?
  }

  lemma LastHadPage(t: Tree, policy: Policy, now: nat, quota: nat, victims: seq<Key>)
    requires EvictTurns(t, {}, policy, now, quota, victims) && |EvictedIds(t, victims)| == quota > 0
    ensures LastTurnHad(t, policy, now, quota, victims)
  {
    hide EvictTurns, EvictedIds, Without, Chosen;
    NoIds(t);
    LastTurn(t, policy, now, quota, victims);
    LastId(t, victims);
  }

  lemma RunSize(t: Tree, policy: Policy, now: nat, quota: nat, victims: seq<Key>)
    requires WellFormed(t) && EvictRun(t, {}, policy, now, quota, victims) && quota <= |Reclaimable(t, {})|
    ensures |EvictedIds(t, victims)| == quota && EvictTurns(t, {}, policy, now, quota, victims)
  {
    hide Chosen, Reclaimable, WellFormed, Blocked, EvictTurns, EvictedIds, Without, Candidates;
    EvictionIsExact(t, {}, policy, now, quota, victims);
  }

  lemma NoIds(t: Tree)
    ensures EvictedIds(t, []) == []
  {
  }

  lemma LastTurn(t: Tree, policy: Policy, now: nat, quota: nat, victims: seq<Key>)
    requires EvictTurns(t, {}, policy, now, quota, victims) && victims != []
    ensures var n := |victims| - 1;
            && EvictTurns(t, {}, policy, now, quota, victims[..n]) && |EvictedIds(t, victims[..n])| < quota
            && Chosen(Without(t, victims[..n]), {}, policy, now + n, victims[n])
  {
    hide Chosen, EvictedIds;
  }

  lemma LastId(t: Tree, victims: seq<Key>)
    requires victims != []
    ensures var n := |victims| - 1;
            |EvictedIds(t, victims)| > |EvictedIds(t, victims[..n])| ==> victims[n] in t && t[victims[n]].block.Some?
  {
  }

  lemma SameSize<T>(a: set<T>, b: set<T>)
    requires a <= b && |b| <= |a|
    ensures a == b
  {
    assert b == a + (b - a);
  }

  /** An exposed insertion does empty its namespace under some policy. */
  lemma ExposedEmpties(t: Tree, ins: Insertion, blockSize: nat, quota: nat) returns (victims: seq<Key>)
    requires WellFormed(t) && Blocky(t, blockSize) && blockSize > 0
    requires ins.path != [] && forall b :: b in ins.path ==> |b| == blockSize
    requires quota <= |Reclaimable(Descend(t, ins.ns, ins.path), PrefixCache.Protected(t, ins))|
    requires Exposed(t, ins, quota)
    ensures Empties(t, ins, Against(ins.ns), 0, quota, victims)
  {
    var grown, ns, policy := Descend(t, ins.ns, ins.path), ins.ns, Against(ins.ns);
    FirstOnPath(t, ins);
    DescendBlocky(t, ns, ins.path, blockSize);
    NothingProtected(t, ins);
    NoTurns(grown, {}, policy, 0, quota);
    victims := RunCompletes(grown, {}, policy, 0, quota, []);
    DescendUnheld(t, ins);
    forall k | k in Without(grown, victims) ensures k.ns != ns {
      NoneRemains(grown, blockSize, ns, quota, victims, k);
    }
  }

  lemma NothingProtected(t: Tree, ins: Insertion)
    requires ExistingDepth(t, ins.ns, ins.path) == 0
    ensures PrefixCache.Protected(t, ins) == {}
  {
  }

  lemma DescendUnheld(t: Tree, ins: Insertion)
    requires WellFormed(t) && forall k :: k in t && k.ns == ins.ns ==> t[k].references == 0
    ensures var grown := Descend(t, ins.ns, ins.path);
            forall k :: k in grown && k.ns == ins.ns ==> grown[k].references == 0
  {
  }

  lemma NoneRemains(t: Tree, blockSize: nat, ns: CacheNamespace, quota: nat, victims: seq<Key>, k: Key)
    requires WellFormed(t) && Blocky(t, blockSize) && blockSize > 0
    requires forall x :: x in t && x.ns == ns ==> t[x].references == 0
    requires EvictRun(t, {}, Against(ns), 0, quota, victims)
    requires 0 < quota <= |Reclaimable(t, {})| && |PagesOf(t, ns)| <= quota
    requires k in Without(t, victims)
    ensures k.ns != ns
  {
    hide WellFormed, Blocky, EvictTurns, EvictedIds, Reclaimable, Chosen, Shrunk, EvictRun, Candidates;
    var policy, n := Against(ns), |victims| - 1;
    RunSize(t, policy, 0, quota, victims);
    LastHadPage(t, policy, 0, quota, victims);
    if k.ns == ns {
      VictimsInNamespace(t, blockSize, ns, 0, quota, victims, k);
      TurnsDistinct(t, {}, policy, 0, quota, victims);
      EvictedCount(t, victims);
      SameSize(WithPage(t, victims), PagesOf(t, ns));
      assert k in t && t[k].block.None? by {
        assert k in PagesOf(t, ns) ==> k in WithPage(t, victims);
      }
      var earlier := victims[..n];
      RunKeeps(t, policy, quota, earlier);
      KeysWithout(t, earlier);
      SubtreeBlocky(t, Without(t, earlier), blockSize);
      StillIn(t, victims, k);
      PicksFromNamespace(Without(t, earlier), blockSize, ns, n, victims[n], k);
    }
  }

  lemma RunKeeps(t: Tree, policy: Policy, quota: nat, victims: seq<Key>)
    requires WellFormed(t) && EvictTurns(t, {}, policy, 0, quota, victims)
    ensures WellFormed(Without(t, victims))
  {
    TurnsKeep(t, {}, policy, 0, quota, victims);
  }

  /**
   Whether some policy makes an admitted insertion lose its pages is decided by what can
   be read off the tree before the call.
   */
  lemma LosesPagesIff(t: Tree, ins: Insertion, blockSize: nat, quota: nat)
    requires WellFormed(t) && Blocky(t, blockSize) && blockSize > 0
    requires ins.path != [] && forall b :: b in ins.path ==> |b| == blockSize
    requires quota <= |Reclaimable(Descend(t, ins.ns, ins.path), PrefixCache.Protected(t, ins))|
    ensures (exists policy: Policy, now: nat, victims: seq<Key> :: Empties(t, ins, policy, now, quota, victims)) <==> Exposed(t, ins, quota)
  {
    hide Empties, Exposed;
    forall policy: Policy, now: nat, victims: seq<Key> | Empties(t, ins, policy, now, quota, victims) ensures Exposed(t, ins, quota) {
      OnlyExposed(t, ins, policy, now, quota, victims);
    }
    if Exposed(t, ins, quota) {
      var victims := ExposedEmpties(t, ins, blockSize, quota);
      assert Empties(t, ins, Against(ins.ns), 0, quota, victims);
    }
  }

  /** The smallest case: a cache of one page that holds one prompt, and a second prompt. */
  lemma SecondPromptIsExposed(ns: CacheNamespace)
    ensures var held := Node(Some(0), 0, 1, 1, 0, 1, 1.0, 1);
            var t := map[Key(ns, [[10]]) := held];
            var ins := Insertion(ns, [[20]], [1], None, 1);
            WellFormed(t) && Blocky(t, 1) && Exposed(t, ins, 1)
  {
    var t := map[Key(ns, [[10]]) := Node(Some(0), 0, 1, 1, 0, 1, 1.0, 1)];
    assert PagesOf(t, ns) == {Key(ns, [[10]])};
    assert [[20]][..1] == [[20]];
    assert Key(ns, [[20]]) !in t by {
      assert [[20]][0] != [[10]][0] by {
        assert [20][0] != [10][0];
      }
    }
  }
}
