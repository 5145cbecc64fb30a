/**
 The block radix tree of a prefix cache, as a map from paths to nodes, and the
 runs of its score-driven leaf eviction.
 */
module RadixTree {
  import opened Basics

  type Token = int
  type TokenBlock = seq<Token>

  datatype CacheNamespace = CacheNamespace(
    model: string,
    tokenizerRevision: string,
    modelRevision: string,
    adapter: string)

  /** A node's identity: its namespace and the token blocks on the way to it. */
  datatype Key = Key(ns: CacheNamespace, path: seq<TokenBlock>)

  datatype Node = Node(
    block: Option<int>,
    references: nat,
    lastAccess: nat,
    frequency: nat,
    hits: nat,
    prefixTokens: nat,
    recomputeCost: real,
    bytesPerBlock: int)

  type Tree = map<Key, Node>

  /** A node as an inserting walk creates it: no page yet. */
  const BLANK_NODE := Node(None, 0, 0, 0, 0, 0, 0.0, 1)

  datatype PrefixCandidate = PrefixCandidate(
    ns: CacheNamespace,
    path: seq<TokenBlock>,
    frequency: nat,
    recomputeCost: real,
    bytesPerBlock: int,
    capacity: Option<nat>)

  datatype PrefixEntry = PrefixEntry(
    ns: CacheNamespace,
    prefixTokens: nat,
    frequency: nat,
    hits: nat,
    lastAccess: nat,
    recomputeCost: real,
    bytesPerBlock: int)

  /** Admission and eviction are decided by an arbitrary policy. */
  datatype Policy = Policy(admit: PrefixCandidate -> bool, score: (PrefixEntry, nat) -> real)

  /** What the policy is shown of a node. */
  ghost function Entry(k: Key, n: Node): PrefixEntry {
    PrefixEntry(k.ns, n.prefixTokens, n.frequency, n.hits, n.lastAccess, n.recomputeCost, n.bytesPerBlock)
  }

  // ----- shape

  predicate Below(d: Key, k: Key) {
    d.ns == k.ns && k.path <= d.path
  }

  predicate IsChild(d: Key, k: Key) {
    Below(d, k) && |d.path| == |k.path| + 1
  }

  function Up(k: Key, n: nat): Key
    requires n <= |k.path|
  {
    Key(k.ns, k.path[..n])
  }

  function Parent(k: Key): Key
    requires |k.path| > 0
  {
    Up(k, |k.path| - 1)
  }

  /** Every node but the top ones hangs below its parent, and pages are prefix-closed. */
  ghost predicate WellFormed(t: Tree) {
    forall k :: k in t ==>
      && |k.path| > 0
      && (|k.path| > 1 ==>
            && Parent(k) in t
            && (t[k].block.Some? ==> t[Parent(k)].block.Some?))
  }

  lemma {:induction false} AncestorIn(t: Tree, k: Key, n: nat)
    requires WellFormed(t) && k in t && 0 < n <= |k.path|
    ensures Up(k, n) in t
    ensures t[k].block.Some? ==> t[Up(k, n)].block.Some?
    decreases |k.path|
  {
    if n == |k.path| {
      assert Up(k, n) == k;
    } else {
      AncestorIn(t, Parent(k), n);
      assert Up(Parent(k), n) == Up(k, n);
    }
  }

  predicate Leaf(t: Tree, k: Key) {
    k in t && forall d :: d in t ==> !IsChild(d, k)
  }

  lemma LeafHasNothingBelow(t: Tree, k: Key, d: Key)
    requires WellFormed(t) && Leaf(t, k) && d in t && Below(d, k)
    ensures d == k
  {
    if |d.path| > |k.path| {
      AncestorIn(t, d, |k.path| + 1);
      assert IsChild(Up(d, |k.path| + 1), k);
      assert false;
    }
  }

  // ----- eviction

  function Candidates(t: Tree, protected: set<Key>): set<Key> {
    set k | k in t && Leaf(t, k) && t[k].references == 0 && k !in protected
  }

  /** Some node at or below `k` is protected or referenced. */
  ghost predicate Blocked(t: Tree, protected: set<Key>, k: Key) {
    exists d :: d in t && Below(d, k) && (d in protected || t[d].references > 0)
  }

  ghost function Evictable(t: Tree, protected: set<Key>): set<Key> {
    set k | k in t && !Blocked(t, protected, k)
  }

  function Cached(t: Tree): set<Key> {
    set k | k in t && t[k].block.Some?
  }

  /** The cached pages that evictions could reclaim. */
  ghost function Reclaimable(t: Tree, protected: set<Key>): set<Key> {
    Evictable(t, protected) * Cached(t)
  }

  lemma CandidateIsEvictable(t: Tree, protected: set<Key>, v: Key)
    requires WellFormed(t) && v in Candidates(t, protected)
    ensures v in Evictable(t, protected)
  {
    forall d | d in t && Below(d, v) ensures d == v {
      LeafHasNothingBelow(t, v, d);
    }
  }

  /** Below anything evictable there is a leaf the loop may choose. */
  lemma {:induction false} EvictableHasCandidate(t: Tree, protected: set<Key>, k: Key) returns (leaf: Key)
    requires WellFormed(t) && k in Evictable(t, protected)
    ensures leaf in Candidates(t, protected) && Below(leaf, k)
    decreases |set d | d in t && Below(d, k)|
  {
    assert Below(k, k);
    if Leaf(t, k) {
      leaf := k;
    } else {
      var d :| d in t && IsChild(d, k);
      var belowK, belowD := set x | x in t && Below(x, k), set x | x in t && Below(x, d);
      assert forall x :: Below(x, d) ==> Below(x, k);
      assert belowD <= belowK - {k};
      Smaller(belowD, belowK - {k});
      leaf := EvictableHasCandidate(t, protected, d);
    }
  }

  /** Removing a chosen leaf shrinks what is evictable by exactly that leaf. */
  lemma RemoveCandidate(t: Tree, protected: set<Key>, v: Key)
    requires WellFormed(t) && v in Candidates(t, protected)
    ensures WellFormed(t - {v})
    ensures Evictable(t - {v}, protected) == Evictable(t, protected) - {v}
    ensures Reclaimable(t - {v}, protected) == Reclaimable(t, protected) - {v}
  {
    var t' := t - {v};
    forall k | k in t' ensures Blocked(t', protected, k) <==> Blocked(t, protected, k) {
      if Blocked(t, protected, k) {
        var d :| d in t && Below(d, k) && (d in protected || t[d].references > 0);
        assert d in t';
      }
    }
    forall k | k in t' && |k.path| > 1 ensures Parent(k) in t' {
      assert IsChild(k, Parent(k));
    }
  }

  function Without(t: Tree, victims: seq<Key>): Tree {
    map k | k in t && k !in victims :: t[k]
  }

  /** The pages of the evicted nodes, in eviction order. */
  function EvictedIds(t: Tree, victims: seq<Key>): (ids: seq<int>)
    ensures |ids| <= |victims|
  {
    if victims == [] then []
    else
      var v := victims[|victims| - 1];
      EvictedIds(t, victims[..|victims| - 1]) + (if v in t && t[v].block.Some? then [t[v].block.value] else [])
  }

  /** One turn of the loop: `v` is an unreferenced, unprotected leaf of minimal score. */
  ghost predicate Chosen(t: Tree, protected: set<Key>, policy: Policy, now: nat, v: Key) {
    && v in Candidates(t, protected)
    && forall c :: c in Candidates(t, protected) ==>
         policy.score(Entry(v, t[v]), now) <= policy.score(Entry(c, t[c]), now)
  }

  lemma SplitLast<T>(s: seq<T>)
    requires s != []
    ensures s == s[..|s| - 1] + [s[|s| - 1]]
  {
  }

  /** The victims so far were chosen in turn, each while the quota was still open. */
  ghost predicate EvictTurns(t: Tree, protected: set<Key>, policy: Policy, now: nat, quota: nat, victims: seq<Key>)
    decreases |victims|
  {
    victims == [] ||
    var n := |victims| - 1;
    var earlier := victims[..n];
    && EvictTurns(t, protected, policy, now, quota, earlier)
    && |EvictedIds(t, earlier)| < quota
    && Chosen(Without(t, earlier), protected, policy, now + n, victims[n])
  }

  /** A complete run: it stops at the quota, or with no leaf left to choose. */
  ghost predicate EvictRun(t: Tree, protected: set<Key>, policy: Policy, now: nat, quota: nat, victims: seq<Key>) {
    && EvictTurns(t, protected, policy, now, quota, victims)
    && (|EvictedIds(t, victims)| >= quota || Candidates(Without(t, victims), protected) == {})
  }

  function Members(victims: seq<Key>): set<Key> {
    set v | v in victims
  }

  /** What a run so far has done to the tree. */
  ghost predicate Shrunk(t: Tree, protected: set<Key>, victims: seq<Key>) {
    var t' := Without(t, victims);
    && WellFormed(t')
    && (forall v :: v in victims ==> v in Evictable(t, protected))
    && |Members(victims)| == |victims|
    && Evictable(t', protected) == Evictable(t, protected) - Members(victims)
    && |Reclaimable(t', protected)| + |EvictedIds(t, victims)| == |Reclaimable(t, protected)|
  }

  lemma MembersStep(victims: seq<Key>, v: Key)
    requires v !in victims
    ensures Members(victims + [v]) == Members(victims) + {v}
    ensures |Members(victims + [v])| == |Members(victims)| + 1
  {
    assert Members(victims + [v]) == Members(victims) + {v};
  }

  lemma EvictedIdsStep(t: Tree, protected: set<Key>, victims: seq<Key>, v: Key)
    requires v in t && v !in victims
    requires v in Evictable(Without(t, victims), protected)
    ensures |EvictedIds(t, victims + [v])| + |Reclaimable(Without(t, victims), protected) - {v}|
            == |EvictedIds(t, victims)| + |Reclaimable(Without(t, victims), protected)|
  {
    assert (victims + [v])[..|victims|] == victims;
    var r := Reclaimable(Without(t, victims), protected);
    if t[v].block.Some? {
      assert r == (r - {v}) + {v};
    } else {
      assert r == r - {v};
    }
  }

  lemma DifferenceStep(e: set<Key>, e1: set<Key>, e2: set<Key>, m: set<Key>, m': set<Key>, v: Key)
    requires e1 == e - m && e2 == e1 - {v} && m' == m + {v}
    ensures e2 == e - m'
  {
  }

  lemma ShrunkStep(t: Tree, protected: set<Key>, victims: seq<Key>, v: Key)
    requires WellFormed(t) && Shrunk(t, protected, victims)
    requires v in Candidates(Without(t, victims), protected)
    ensures Shrunk(t, protected, victims + [v])
  {
    var t' := Without(t, victims);
    WithoutStep(t, victims, v);
    RemoveCandidate(t', protected, v);
    CandidateIsEvictable(t', protected, v);
    MembersStep(victims, v);
    EvictedIdsStep(t, protected, victims, v);
    DifferenceStep(Evictable(t, protected), Evictable(t', protected), Evictable(t' - {v}, protected),
                   Members(victims), Members(victims + [v]), v);
  }

  lemma WithoutStep(t: Tree, victims: seq<Key>, v: Key)
    ensures Without(t, victims + [v]) == Without(t, victims) - {v}
  {
  }

  lemma {:induction false} TurnsKeep(t: Tree, protected: set<Key>, policy: Policy, now: nat, quota: nat, victims: seq<Key>)
    requires WellFormed(t) && EvictTurns(t, protected, policy, now, quota, victims)
    ensures Shrunk(t, protected, victims)
    decreases |victims|
  {
    if victims == [] {
      assert Without(t, victims) == t;
    } else {
      var n := |victims| - 1;
      var earlier, v := victims[..n], victims[n];
      SplitLast(victims);
      TurnsKeep(t, protected, policy, now, quota, earlier);
      ShrunkStep(t, protected, earlier, v);
      assert Shrunk(t, protected, earlier + [v]);
    }
  }

  lemma TurnsWithinQuota(t: Tree, protected: set<Key>, policy: Policy, now: nat, quota: nat, victims: seq<Key>)
    requires EvictTurns(t, protected, policy, now, quota, victims)
    ensures |EvictedIds(t, victims)| <= quota
  {
  }

  /**
   Eviction exactness: for any policy, a run reclaims exactly as many pages as were
   asked for and countable as evictable, and never touches a referenced or protected
   node, nor an ancestor of one.
   */
  lemma EvictionIsExact(t: Tree, protected: set<Key>, policy: Policy, now: nat, quota: nat, victims: seq<Key>)
    requires WellFormed(t) && EvictRun(t, protected, policy, now, quota, victims)
    ensures |EvictedIds(t, victims)| ==
            if quota <= |Reclaimable(t, protected)| then quota else |Reclaimable(t, protected)|
    ensures forall v :: v in victims ==> v in t && !Blocked(t, protected, v)
    ensures WellFormed(Without(t, victims))
  {
    TurnsKeep(t, protected, policy, now, quota, victims);
    TurnsWithinQuota(t, protected, policy, now, quota, victims);
    var after := Without(t, victims);
    forall v | v in victims ensures v in Evictable(t, protected) {
      assert v in Members(victims);
    }
    if |EvictedIds(t, victims)| < quota {
      if k :| k in Evictable(after, protected) {
        var leaf := EvictableHasCandidate(after, protected, k);
        assert false;
      }
      assert Reclaimable(after, protected) == {};
    }
  }

  /** No run is longer than the tree, so the eviction loop terminates. */
  lemma TurnsAreBounded(t: Tree, protected: set<Key>, policy: Policy, now: nat, quota: nat, victims: seq<Key>)
    requires WellFormed(t) && EvictTurns(t, protected, policy, now, quota, victims)
    ensures |victims| <= |t|
  {
    TurnsKeep(t, protected, policy, now, quota, victims);
    Smaller(Members(victims), t.Keys);
  }

  /** A set of nodes has one of minimal score. */
  lemma {:induction false} MinimumExists(t: Tree, nodes: set<Key>, policy: Policy, now: nat) returns (v: Key)
    requires nodes != {} && nodes <= t.Keys
    ensures v in nodes
    ensures forall c :: c in nodes ==> policy.score(Entry(v, t[v]), now) <= policy.score(Entry(c, t[c]), now)
    decreases |nodes|
  {
    v :| v in nodes;
    if nodes != {v} {
      assert nodes == (nodes - {v}) + {v};
      var w := MinimumExists(t, nodes - {v}, policy, now);
      if policy.score(Entry(w, t[w]), now) < policy.score(Entry(v, t[v]), now) {
        v := w;
      }
    }
  }

  /** Removing unreferenced nodes disturbs no acquisition. */
  lemma WithoutLeased(t: Tree, victims: seq<Key>, leases: map<int, Key>)
    requires WellFormed(t) && Leased(t, leases)
    requires forall v :: v in victims ==> ReferencesAt(t, v) == 0
    ensures Leased(Without(t, victims), leases)
  {
    var t' := Without(t, victims);
    LeasedTransfer(t, t', leases);
  }

  // ----- counting the evictable pages

  /** Some node of a set has no child in it, so children can be visited before parents. */
  lemma {:induction false} ChildlessExists(nodes: set<Key>) returns (k: Key)
    requires nodes != {}
    ensures k in nodes && forall c :: c in nodes ==> |c.path| <= |k.path|
    ensures forall c :: c in nodes ==> !IsChild(c, k)
    decreases |nodes|
  {
    k :| k in nodes;
    if nodes != {k} {
      assert nodes == (nodes - {k}) + {k};
      var d := ChildlessExists(nodes - {k});
      if |d.path| > |k.path| {
        k := d;
      }
    }
  }

  /** A node is blocked exactly when it is protected, referenced, or has a blocked child. */
  lemma BlockedByChildren(t: Tree, protected: set<Key>, k: Key)
    requires WellFormed(t) && k in t
    ensures Blocked(t, protected, k) <==>
              || k in protected
              || t[k].references > 0
              || exists c :: c in t && IsChild(c, k) && Blocked(t, protected, c)
  {
    assert Below(k, k);
    if Blocked(t, protected, k) && k !in protected && t[k].references == 0 {
      var d :| d in t && Below(d, k) && (d in protected || t[d].references > 0);
      assert |d.path| == |k.path| ==> d == k;
      var c := Up(d, |k.path| + 1);
      AncestorIn(t, d, |k.path| + 1);
      assert IsChild(c, k) && Below(d, c);
      assert Blocked(t, protected, c);
    }
  }

  // ----- paths of an insertion or a lookup

  /** `k` is one of the nodes on the way down `path`. */
  predicate OnPath(k: Key, ns: CacheNamespace, path: seq<TokenBlock>) {
    k.ns == ns && 0 < |k.path| && k.path <= path
  }

  function PathKeys(ns: CacheNamespace, path: seq<TokenBlock>): set<Key> {
    set i | 1 <= i <= |path| :: Key(ns, path[..i])
  }

  lemma PathKeysAre(ns: CacheNamespace, path: seq<TokenBlock>)
    ensures forall k :: k in PathKeys(ns, path) <==> OnPath(k, ns, path)
  {
    forall k | OnPath(k, ns, path) ensures k in PathKeys(ns, path) {
      assert k == Key(ns, path[..|k.path|]);
    }
  }

  function BlockAt(t: Tree, k: Key): Option<int> {
    if k in t then t[k].block else None
  }

  function ReferencesAt(t: Tree, k: Key): nat {
    if k in t then t[k].references else 0
  }

  /** How many leading blocks of `path` have a node. */
  function ExistingDepth(t: Tree, ns: CacheNamespace, path: seq<TokenBlock>): (n: nat)
    ensures n <= |path| && (n > 0 ==> Key(ns, path[..n]) in t)
    ensures forall m :: n < m <= |path| ==> Key(ns, path[..m]) !in t
  {
    if path == [] then 0
    else if Key(ns, path) in t then (assert path[..|path|] == path; |path|)
    else
      var shorter := path[..|path| - 1];
      assert forall m :: 0 <= m < |path| ==> shorter[..m] == path[..m];
      assert path[..|path|] == path;
      ExistingDepth(t, ns, shorter)
  }

  /** The longest cached prefix of `path`, found by trying every length. */
  function MatchDepth(t: Tree, ns: CacheNamespace, path: seq<TokenBlock>): (n: nat)
    ensures n <= |path| && (n > 0 ==> BlockAt(t, Key(ns, path[..n])).Some?)
    ensures forall m :: n < m <= |path| ==> BlockAt(t, Key(ns, path[..m])).None?
  {
    if path == [] then 0
    else if BlockAt(t, Key(ns, path)).Some? then (assert path[..|path|] == path; |path|)
    else
      var shorter := path[..|path| - 1];
      assert forall m :: 0 <= m < |path| ==> shorter[..m] == path[..m];
      assert path[..|path|] == path;
      MatchDepth(t, ns, shorter)
  }

  /** Prefix closure: every node above the deepest cached one is cached too. */
  lemma MatchedPrefix(t: Tree, ns: CacheNamespace, path: seq<TokenBlock>, m: nat)
    requires WellFormed(t) && 0 < m <= MatchDepth(t, ns, path)
    ensures BlockAt(t, Key(ns, path[..m])).Some?
  {
    var k := Key(ns, path[..MatchDepth(t, ns, path)]);
    AncestorIn(t, k, m);
    assert Up(k, m) == Key(ns, path[..m]);
  }

  lemma ExistingPrefix(t: Tree, ns: CacheNamespace, path: seq<TokenBlock>, m: nat)
    requires WellFormed(t) && 0 < m <= ExistingDepth(t, ns, path)
    ensures Key(ns, path[..m]) in t
  {
    var k := Key(ns, path[..ExistingDepth(t, ns, path)]);
    AncestorIn(t, k, m);
    assert Up(k, m) == Key(ns, path[..m]);
  }

  /** The tree after a walk that creates the missing nodes of `path`. */
  function Descend(t: Tree, ns: CacheNamespace, path: seq<TokenBlock>): Tree {
    map k | k in t.Keys + PathKeys(ns, path) :: if k in t then t[k] else BLANK_NODE
  }

  lemma DescendKeeps(t: Tree, ns: CacheNamespace, path: seq<TokenBlock>)
    requires WellFormed(t)
    ensures WellFormed(Descend(t, ns, path))
    ensures forall k :: BlockAt(Descend(t, ns, path), k) == BlockAt(t, k)
    ensures forall k :: ReferencesAt(Descend(t, ns, path), k) == ReferencesAt(t, k)
    ensures Cached(Descend(t, ns, path)) == Cached(t)
  {
    PathKeysAre(ns, path);
    var t' := Descend(t, ns, path);
    forall k | k in t' && |k.path| > 1 ensures Parent(k) in t' && (t'[k].block.Some? ==> t'[Parent(k)].block.Some?) {
      if k !in t {
        assert OnPath(Parent(k), ns, path);
      }
    }
  }

  /** A node an admitted insertion passes: it keeps a page it already has. */
  function FillNode(n: Node, block: int, depth: nat, now: nat, frequency: nat, blockSize: nat, costPerBlock: real, bytesPerBlock: int): (filled: Node)
    ensures filled.block == if n.block.Some? then n.block else Some(block)
    ensures filled.references == n.references
  {
    n.(block := if n.block.None? then Some(block) else n.block,
       lastAccess := now,
       frequency := if n.frequency < frequency then frequency else n.frequency,
       prefixTokens := depth * blockSize,
       recomputeCost := costPerBlock * depth as real,
       bytesPerBlock := bytesPerBlock)
  }

  datatype Filling = Filling(blocks: seq<int>, now: nat, frequency: nat, blockSize: nat, costPerBlock: real, bytesPerBlock: int)

  /** The tree after an admitted insertion mapped the blocks of `path`. */
  function Filled(t: Tree, ns: CacheNamespace, path: seq<TokenBlock>, f: Filling): Tree
    requires |path| <= |f.blocks|
  {
    map k | k in t.Keys + PathKeys(ns, path) ::
      if OnPath(k, ns, path) then
        FillNode(if k in t then t[k] else BLANK_NODE, f.blocks[|k.path| - 1], |k.path|, f.now + |k.path| - 1,
                 f.frequency, f.blockSize, f.costPerBlock, f.bytesPerBlock)
      else if k in t then t[k] else BLANK_NODE
  }

  /** The pages an insertion maps: those of path nodes that had none. */
  function MissingBlocks(t: Tree, ns: CacheNamespace, path: seq<TokenBlock>, blocks: seq<int>): (ids: seq<int>)
    requires |path| <= |blocks|
    ensures |ids| <= |path|
  {
    if path == [] then []
    else
      var n := |path|;
      MissingBlocks(t, ns, path[..n - 1], blocks)
      + (if BlockAt(t, Key(ns, path)).None? then [blocks[n - 1]] else [])
  }

  lemma {:induction false} MissingBlocksAre(t: Tree, ns: CacheNamespace, path: seq<TokenBlock>, blocks: seq<int>)
    requires |path| <= |blocks|
    ensures forall b :: b in MissingBlocks(t, ns, path, blocks) <==>
              exists i {:trigger blocks[i]} :: 0 <= i < |path| && blocks[i] == b && BlockAt(t, Key(ns, path[..i + 1])).None?
  {
    if path != [] {
      var n := |path| - 1;
      MissingBlocksAre(t, ns, path[..n], blocks);
      assert path[..n + 1] == path;
      assert forall m :: 0 < m <= n ==> path[..n][..m] == path[..m];
    }
  }

  lemma FilledAt(t: Tree, ns: CacheNamespace, path: seq<TokenBlock>, f: Filling, k: Key)
    requires |path| <= |f.blocks|
    ensures k in Filled(t, ns, path, f) <==> k in t || OnPath(k, ns, path)
    ensures BlockAt(Filled(t, ns, path, f), k) ==
              if OnPath(k, ns, path) && BlockAt(t, k).None? then Some(f.blocks[|k.path| - 1]) else BlockAt(t, k)
    ensures ReferencesAt(Filled(t, ns, path, f), k) == ReferencesAt(t, k)
  {
    PathKeysAre(ns, path);
  }

  /** Mapping the pages of a path disturbs no acquisition. */
  lemma FilledLeased(t: Tree, ns: CacheNamespace, path: seq<TokenBlock>, f: Filling, leases: map<int, Key>)
    requires WellFormed(t) && |path| <= |f.blocks| && Leased(t, leases)
    ensures Leased(Filled(t, ns, path, f), leases)
  {
    var t' := Filled(t, ns, path, f);
    FilledWellFormed(t, ns, path, f);
    forall k ensures ReferencesAt(t', k) == ReferencesAt(t, k) && (BlockAt(t, k).Some? ==> BlockAt(t', k).Some?) && (k in t ==> k in t') {
      FilledAt(t, ns, path, f, k);
    }
    LeasedTransfer(t, t', leases);
  }

  lemma DescendLeased(t: Tree, ns: CacheNamespace, path: seq<TokenBlock>, leases: map<int, Key>)
    requires WellFormed(t) && Leased(t, leases)
    ensures Leased(Descend(t, ns, path), leases)
  {
    DescendKeeps(t, ns, path);
    LeasedTransfer(t, Descend(t, ns, path), leases);
  }

  /** Blocks past the deepest cached node are all missing. */
  lemma {:induction false} MissingBeyond(t: Tree, ns: CacheNamespace, path: seq<TokenBlock>, blocks: seq<int>, shared: nat)
    requires shared <= |path| <= |blocks|
    requires forall m :: shared < m <= |path| ==> BlockAt(t, Key(ns, path[..m])).None?
    ensures |MissingBlocks(t, ns, path, blocks)| == |MissingBlocks(t, ns, path[..shared], blocks)| + |path| - shared
    ensures shared == 0 ==> MissingBlocks(t, ns, path, blocks) == blocks[..|path|]
    decreases |path|
  {
    if |path| == shared {
      assert path[..shared] == path;
    } else {
      var n := |path| - 1;
      assert path[..n][..shared] == path[..shared];
      assert path[..|path|] == path;
      assert forall m :: 0 < m <= n ==> path[..n][..m] == path[..m];
      MissingBeyond(t, ns, path[..n], blocks, shared);
    }
  }

  /** Trees that agree on the pages along a path miss the same ones. */
  lemma {:induction false} MissingSame(t: Tree, t': Tree, ns: CacheNamespace, path: seq<TokenBlock>, blocks: seq<int>)
    requires |path| <= |blocks|
    requires forall m :: 0 < m <= |path| ==> BlockAt(t, Key(ns, path[..m])) == BlockAt(t', Key(ns, path[..m]))
    ensures MissingBlocks(t, ns, path, blocks) == MissingBlocks(t', ns, path, blocks)
  {
    if path != [] {
      var n := |path| - 1;
      assert path[..|path|] == path;
      assert forall m :: 0 < m <= n ==> path[..n][..m] == path[..m];
      MissingSame(t, t', ns, path[..n], blocks);
    }
  }

  lemma FilledWellFormed(t: Tree, ns: CacheNamespace, path: seq<TokenBlock>, f: Filling)
    requires WellFormed(t) && |path| <= |f.blocks|
    ensures WellFormed(Filled(t, ns, path, f))
  {
    var t' := Filled(t, ns, path, f);
    forall k | k in t'
      ensures 0 < |k.path|
      ensures |k.path| > 1 ==> Parent(k) in t' && (t'[k].block.Some? ==> t'[Parent(k)].block.Some?)
    {
      FilledAt(t, ns, path, f, k);
      if |k.path| > 1 {
        FilledAt(t, ns, path, f, Parent(k));
        if OnPath(k, ns, path) {
          assert OnPath(Parent(k), ns, path);
        }
      }
    }
  }

  // ----- acquisitions

  /** The acquisitions whose matched path runs through a node. */
  ghost function Through(leases: map<int, Key>, k: Key): set<int> {
    set l | l in leases && Below(leases[l], k)
  }

  /** Each node's reference count is the number of outstanding acquisitions through it. */
  ghost predicate Leased(t: Tree, leases: map<int, Key>) {
    && (forall l :: l in leases ==> BlockAt(t, leases[l]).Some? && |leases[l].path| > 0)
    && (forall k :: k in t ==> t[k].references == |Through(leases, k)|)
  }

  lemma NoLeaseThrough(t: Tree, leases: map<int, Key>, k: Key)
    requires WellFormed(t) && Leased(t, leases) && ReferencesAt(t, k) == 0 && |k.path| > 0
    ensures Through(leases, k) == {}
  {
    if k !in t {
      forall l | l in leases ensures !Below(leases[l], k) {
        if Below(leases[l], k) {
          assert Up(leases[l], |k.path|) == k;
          AncestorIn(t, leases[l], |k.path|);
        }
      }
    }
  }

  lemma EmptyPath(t: Tree, ns: CacheNamespace, delta: int, now: nat)
    ensures Adjusted(t, ns, [], delta) == t && Touched(t, ns, [], now) == t
  {
  }

  lemma AdjustStep(t: Tree, ns: CacheNamespace, path: seq<TokenBlock>, i: nat, delta: int)
    requires i < |path| && Key(ns, path[..i + 1]) in t && t[Key(ns, path[..i + 1])].references + delta >= 0
    ensures var k := Key(ns, path[..i + 1]);
            var n := t[k];
            && Adjusted(t, ns, path[..i], delta)[k] == n
            && Adjusted(t, ns, path[..i + 1], delta)
               == Adjusted(t, ns, path[..i], delta)[k := n.(references := n.references + delta)]
  {
    forall k | k in t ensures OnPath(k, ns, path[..i + 1]) <==> OnPath(k, ns, path[..i]) || k == Key(ns, path[..i + 1]) {
      OnLongerPath(ns, path, i, k);
    }
  }

  lemma ThroughUpdate(leases: map<int, Key>, l: int, k: Key, x: Key)
    requires l !in leases
    ensures |Through(leases[l := k], x)| == |Through(leases, x)| + if Below(k, x) then 1 else 0
  {
    if Below(k, x) {
      assert Through(leases[l := k], x) == Through(leases, x) + {l};
    } else {
      assert Through(leases[l := k], x) == Through(leases, x);
    }
  }

  lemma LeasedIsReferenced(t: Tree, leases: map<int, Key>, l: int, k: Key)
    requires Leased(t, leases) && l in leases && k in t && Below(leases[l], k)
    ensures t[k].references > 0
  {
    assert l in Through(leases, k);
  }

  /** Trees that agree on the pages and references of every leased node agree on the acquisitions. */
  lemma LeasedTransfer(t: Tree, t': Tree, leases: map<int, Key>)
    requires WellFormed(t) && Leased(t, leases)
    requires forall k :: k in t' ==> |k.path| > 0
    requires forall k :: ReferencesAt(t, k) > 0 ==> k in t' && (t[k].block.Some? ==> t'[k].block.Some?)
    requires forall k :: k in t' ==> t'[k].references == ReferencesAt(t, k)
    ensures Leased(t', leases)
  {
    forall l | l in leases ensures BlockAt(t', leases[l]).Some? {
      LeasedIsReferenced(t, leases, l, leases[l]);
    }
    forall k | k in t' ensures t'[k].references == |Through(leases, k)| {
      if k !in t {
        NoLeaseThrough(t, leases, k);
      }
    }
  }

  /** A lookup passed every node of a path. */
  function Touched(t: Tree, ns: CacheNamespace, path: seq<TokenBlock>, now: nat): Tree {
    map k | k in t :: if OnPath(k, ns, path)
                      then t[k].(lastAccess := now + |k.path| - 1, hits := t[k].hits + 1) else t[k]
  }

  lemma TouchedKeeps(t: Tree, ns: CacheNamespace, path: seq<TokenBlock>, now: nat)
    requires WellFormed(t)
    ensures WellFormed(Touched(t, ns, path, now))
    ensures forall k :: BlockAt(Touched(t, ns, path, now), k) == BlockAt(t, k)
    ensures forall k :: ReferencesAt(Touched(t, ns, path, now), k) == ReferencesAt(t, k)
    ensures Cached(Touched(t, ns, path, now)) == Cached(t)
    ensures Touched(t, ns, path, now).Keys == t.Keys
  {
  }

  /** The nodes on a path are its prefixes. */
  lemma PathNode(k: Key, ns: CacheNamespace, path: seq<TokenBlock>)
    requires OnPath(k, ns, path)
    ensures 0 < |k.path| <= |path| && k == Key(ns, path[..|k.path|])
  {
  }

  /** Going one block deeper adds one node to the path. */
  lemma OnLongerPath(ns: CacheNamespace, path: seq<TokenBlock>, i: nat, k: Key)
    requires i < |path|
    ensures OnPath(k, ns, path[..i + 1]) <==> OnPath(k, ns, path[..i]) || k == Key(ns, path[..i + 1])
  {
    assert path[..i] == path[..i + 1][..i];
    if OnPath(k, ns, path[..i + 1]) {
      assert k.path == path[..i + 1][..|k.path|];
    }
  }

  lemma TouchStep(t: Tree, ns: CacheNamespace, path: seq<TokenBlock>, i: nat, now: nat)
    requires i < |path| && Key(ns, path[..i + 1]) in t
    ensures var k := Key(ns, path[..i + 1]);
            var n := t[k];
            && Touched(t, ns, path[..i], now)[k] == n
            && Touched(t, ns, path[..i + 1], now)
               == Touched(t, ns, path[..i], now)[k := n.(lastAccess := now + i, hits := n.hits + 1)]
  {
    forall k | k in t ensures OnPath(k, ns, path[..i + 1]) <==> OnPath(k, ns, path[..i]) || k == Key(ns, path[..i + 1]) {
      OnLongerPath(ns, path, i, k);
    }
  }

  /** A lookup disturbs no acquisition. */
  lemma TouchedLeased(t: Tree, ns: CacheNamespace, path: seq<TokenBlock>, now: nat, leases: map<int, Key>)
    requires WellFormed(t) && Leased(t, leases)
    ensures Leased(Touched(t, ns, path, now), leases)
  {
    TouchedKeeps(t, ns, path, now);
    LeasedTransfer(t, Touched(t, ns, path, now), leases);
  }

  /** One more, or one fewer, reference on every node of a path. */
  function Adjusted(t: Tree, ns: CacheNamespace, path: seq<TokenBlock>, delta: int): Tree {
    map k | k in t :: if OnPath(k, ns, path) && t[k].references + delta >= 0
                      then t[k].(references := t[k].references + delta) else t[k]
  }

  lemma AcquireLeased(t: Tree, leases: map<int, Key>, l: int, k: Key)
    requires WellFormed(t) && Leased(t, leases) && l !in leases && BlockAt(t, k).Some?
    ensures Leased(Adjusted(t, k.ns, k.path, 1), leases[l := k])
  {
    var t' := Adjusted(t, k.ns, k.path, 1);
    forall x | x in t' ensures t'[x].references == |Through(leases[l := k], x)| {
      ThroughUpdate(leases, l, k, x);
    }
  }

  lemma ReleaseLeased(t: Tree, leases: map<int, Key>, l: int)
    requires WellFormed(t) && Leased(t, leases) && l in leases
    ensures leases[l] in t && leases[l].path != []
    ensures forall x :: x in t && OnPath(x, leases[l].ns, leases[l].path) ==> t[x].references >= 1
    ensures Leased(Adjusted(t, leases[l].ns, leases[l].path, -1), leases - {l})
  {
    var k, others := leases[l], leases - {l};
    forall x | x in t && OnPath(x, k.ns, k.path) ensures t[x].references >= 1 {
      LeasedIsReferenced(t, leases, l, x);
    }
    var t' := Adjusted(t, k.ns, k.path, -1);
    assert leases == others[l := k];
    forall x | x in t' ensures t'[x].references == |Through(others, x)| {
      ThroughUpdate(others, l, k, x);
    }
  }

  /** Adjusting references changes nothing else. */
  lemma AdjustedKeeps(t: Tree, ns: CacheNamespace, path: seq<TokenBlock>, delta: int)
    requires WellFormed(t)
    ensures WellFormed(Adjusted(t, ns, path, delta))
    ensures forall k :: BlockAt(Adjusted(t, ns, path, delta), k) == BlockAt(t, k)
    ensures Cached(Adjusted(t, ns, path, delta)) == Cached(t)
    ensures Adjusted(t, ns, path, delta).Keys == t.Keys
  {
  }
}
