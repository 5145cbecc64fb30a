/**
 The namespace-safe block radix cache: insertion behind an admission policy,
 longest-prefix lookup with acquisition, release, and eviction.

 Acquisitions and the pages of a dropped root are tracked in ghost state.
 */
module PrefixCaching {
  import opened Basics
  import opened RadixTree

  datatype PrefixMatch = PrefixMatch(
    matchedTokens: nat,
    blockIds: seq<int>,
    admitted: bool,
    evictedBlockIds: seq<int>,
    insertedBlockIds: seq<int>)

  const NO_MATCH := PrefixMatch(0, [], true, [], [])

  /** The `i`-th complete block of a token sequence. */
  function Chunk(tokens: seq<Token>, blockSize: nat, i: nat): (b: TokenBlock)
    requires blockSize > 0 && i < |tokens| / blockSize
    ensures |b| == blockSize
  {
    ChunkFits(|tokens|, blockSize, i);
    tokens[i * blockSize..(i + 1) * blockSize]
  }

  lemma ChunkFits(length: nat, blockSize: nat, i: nat)
    requires blockSize > 0 && i < length / blockSize
    ensures 0 <= i * blockSize <= (i + 1) * blockSize <= length
    ensures (i + 1) * blockSize - i * blockSize == blockSize
  {
    MulMonotone(i + 1, length / blockSize, blockSize);
  }

  /** The complete token blocks of a token sequence. */
  function Chunks(tokens: seq<Token>, blockSize: nat): (path: seq<TokenBlock>)
    requires blockSize > 0
    ensures |path| == |tokens| / blockSize
    ensures forall b :: b in path ==> |b| == blockSize
  {
    seq(|tokens| / blockSize, i requires 0 <= i < |tokens| / blockSize => Chunk(tokens, blockSize, i))
  }

  /** The part of a sequence of paths an insertion works on. */
  function InsertPath(tokens: seq<Token>, blocks: seq<int>, blockSize: nat): (path: seq<TokenBlock>)
    requires blockSize > 0
    ensures |path| <= |blocks|
    ensures forall b :: b in path ==> |b| == blockSize
  {
    Chunks(tokens, blockSize)[..Min(|tokens| / blockSize, |blocks|)]
  }

  /** The admission request for the first `n` blocks of a path. */
  function Candidate(
    ns: CacheNamespace, path: seq<TokenBlock>, n: nat, frequency: nat, blockSize: nat,
    recomputeCost: Option<real>, bytesPerBlock: int, capacity: Option<nat>): PrefixCandidate
    requires n <= |path|
  {
    PrefixCandidate(
      ns, path[..n], frequency,
      if recomputeCost.Some? then recomputeCost.value else Times(n, blockSize) as real,
      bytesPerBlock, capacity)
  }

  /** How many blocks of a path the policy admits: all of them, else the part already shared, else none. */
  function AdmittedBlocks(
    policy: Policy, ns: CacheNamespace, path: seq<TokenBlock>, shared: nat, frequency: nat, blockSize: nat,
    recomputeCost: Option<real>, bytesPerBlock: int, capacity: Option<nat>): (n: nat)
    requires shared <= |path|
    ensures n == 0 || n == |path| || n == shared
    ensures n > 0 ==> policy.admit(Candidate(ns, path, n, if n < |path| || shared == |path| then frequency else 1, blockSize,
                                             recomputeCost, bytesPerBlock, capacity))
    ensures n < |path| ==> !policy.admit(Candidate(ns, path, |path|, if shared == |path| then frequency else 1, blockSize,
                                                   recomputeCost, bytesPerBlock, capacity))
    ensures n == 0 && 0 < shared < |path| ==>
              !policy.admit(Candidate(ns, path, shared, frequency, blockSize, recomputeCost, bytesPerBlock, capacity))
  {
    var fullFrequency := if shared == |path| then frequency else 1;
    if policy.admit(Candidate(ns, path, |path|, fullFrequency, blockSize, recomputeCost, bytesPerBlock, capacity)) then |path|
    else if shared > 0 && policy.admit(Candidate(ns, path, shared, frequency, blockSize, recomputeCost, bytesPerBlock, capacity)) then shared
    else 0
  }

  ghost predicate HasNamespace(t: Tree, ns: CacheNamespace) {
    exists k :: k in t && k.ns == ns
  }

  /** What an insertion is given once its arguments passed the checks. */
  datatype Insertion = Insertion(
    ns: CacheNamespace,
    path: seq<TokenBlock>,
    blocks: seq<int>,
    recomputeCost: Option<real>,
    bytesPerBlock: int)

  /** How an insertion went, for its caller's proofs. */
  datatype InsertRun = Rejected | Admitted(blocks: nat, quota: nat, victims: seq<Key>, rootDropped: bool)

  /** Only page-less leaves were removed. */
  ghost predicate Pruned(t: Tree, t': Tree) {
    && t'.Keys <= t.Keys
    && (forall k :: k in t' ==> t'[k] == t[k])
    && (forall k :: k in t && k !in t' ==> Leaf(t, k) && t[k].block.None?)
  }

  ghost function PagelessNodes(t: Tree): set<Key> {
    t.Keys - Cached(t)
  }

  ghost function PagelessLeaves(t: Tree): set<Key> {
    set k | k in PagelessNodes(t) && Leaf(t, k)
  }

  /** How far the page-less nodes are over a budget. */
  ghost function Excess(t: Tree, budget: nat): nat {
    Max(0, |PagelessNodes(t)| - budget)
  }

  /** As many page-less leaves as are too many were removed, or all there were. */
  ghost predicate PrunedTo(t: Tree, t': Tree, budget: nat) {
    Pruned(t, t') && |t.Keys - t'.Keys| == Min(Excess(t, budget), |PagelessLeaves(t)|)
  }

  /**
   A pruning meets the budget exactly when there are enough page-less leaves: it does
   not go on to the parents its removals turn into leaves.
   */
  lemma BudgetHoldsIff(t: Tree, t': Tree, budget: nat)
    requires PrunedTo(t, t', budget)
    ensures |PagelessNodes(t')| <= budget <==> Excess(t, budget) <= |PagelessLeaves(t)|
  {
    hide Leaf;
    var removed := t.Keys - t'.Keys;
    assert PagelessNodes(t') == PagelessNodes(t) - removed;
    Smaller(removed, PagelessNodes(t));
  }

  /** A chain of page-less nodes has one leaf, so one insertion may exceed any budget by all the others. */
  lemma PrunedOnce(t: Tree, t': Tree, budget: nat, leaf: Key)
    requires PrunedTo(t, t', budget) && PagelessLeaves(t) == {leaf}
    ensures |PagelessNodes(t')| == |PagelessNodes(t)| - Min(Excess(t, budget), 1)
  {
    hide Leaf;
    var removed := t.Keys - t'.Keys;
    assert PagelessNodes(t') == PagelessNodes(t) - removed;
    Smaller(removed, PagelessNodes(t));
  }

  /** `ids` are the pages on the way down a cached path. */
  ghost predicate MatchedBlocks(t: Tree, ns: CacheNamespace, path: seq<TokenBlock>, ids: seq<int>) {
    && |ids| == |path|
    && forall m :: 0 < m <= |path| ==> BlockAt(t, Key(ns, path[..m])) == Some(ids[m - 1])
  }

  lemma NothingMatched(t: Tree, ns: CacheNamespace)
    ensures MatchedBlocks(t, ns, [], [])
  {
  }

  lemma MatchedBlocksStep(t: Tree, ns: CacheNamespace, path: seq<TokenBlock>, ids: seq<int>, id: int)
    requires |ids| < |path| && MatchedBlocks(t, ns, path[..|ids|], ids)
    requires BlockAt(t, Key(ns, path[..|ids| + 1])) == Some(id)
    ensures MatchedBlocks(t, ns, path[..|ids| + 1], ids + [id])
  {
    var longer := path[..|ids| + 1];
    forall m | 0 < m <= |longer| ensures BlockAt(t, Key(ns, longer[..m])) == Some((ids + [id])[m - 1]) {
      if m <= |ids| {
        assert longer[..m] == path[..|ids|][..m];
      } else {
        assert longer[..m] == longer;
      }
    }
  }

  lemma NoTurns(t: Tree, protected: set<Key>, policy: Policy, now: nat, quota: nat)
    ensures EvictTurns(t, protected, policy, now, quota, [])
    ensures Without(t, []) == t && EvictedIds(t, []) == []
  {
  }

  lemma TurnTaken(t: Tree, protected: set<Key>, policy: Policy, now: nat, quota: nat, victims: seq<Key>, v: Key)
    requires EvictTurns(t, protected, policy, now, quota, victims)
    requires |EvictedIds(t, victims)| < quota
    requires Chosen(Without(t, victims), protected, policy, now + |victims|, v)
    ensures EvictTurns(t, protected, policy, now, quota, victims + [v])
    ensures Without(t, victims + [v]) == Without(t, victims) - {v}
    ensures v in Without(t, victims)
    ensures var n := Without(t, victims)[v];
            EvictedIds(t, victims + [v]) == EvictedIds(t, victims) + (if n.block.Some? then [n.block.value] else [])
  {
    hide Chosen;
    assert (victims + [v])[..|victims|] == victims;
    WithoutStep(t, victims, v);
    assert v in Without(t, victims) by {
      ChosenIsIn(Without(t, victims), protected, policy, now + |victims|, v);
    }
  }

  lemma ChosenIsIn(t: Tree, protected: set<Key>, policy: Policy, now: nat, v: Key)
    requires Chosen(t, protected, policy, now, v)
    ensures v in t
  {
  }

  ghost function BlockedAmong(t: Tree, protected: set<Key>, some: set<Key>): set<Key> {
    set k | k in some && Blocked(t, protected, k)
  }

  /** Once its children are decided, so is a node. */
  lemma BlockedStep(t: Tree, protected: set<Key>, k: Key, done: set<Key>)
    requires WellFormed(t) && k in t && done <= t.Keys
    requires forall c :: c in t && IsChild(c, k) ==> c in done
    ensures Blocked(t, protected, k) <==>
              k in protected || t[k].references > 0 || exists c :: c in BlockedAmong(t, protected, done) && IsChild(c, k)
    ensures BlockedAmong(t, protected, done + {k}) ==
            BlockedAmong(t, protected, done) + if Blocked(t, protected, k) then {k} else {}
  {
    hide WellFormed, Blocked, IsChild;
    BlockedByChildren(t, protected, k);
  }

  ghost function ReclaimableAmong(t: Tree, protected: set<Key>, some: set<Key>): set<Key> {
    set k | k in some && k in t && !Blocked(t, protected, k) && t[k].block.Some?
  }

  lemma ReclaimableStep(t: Tree, protected: set<Key>, some: set<Key>, k: Key)
    requires k in t && k !in some
    ensures |ReclaimableAmong(t, protected, some + {k})| ==
            |ReclaimableAmong(t, protected, some)| + if !Blocked(t, protected, k) && t[k].block.Some? then 1 else 0
  {
    var before, after := ReclaimableAmong(t, protected, some), ReclaimableAmong(t, protected, some + {k});
    if !Blocked(t, protected, k) && t[k].block.Some? {
      assert after == before + {k};
    } else {
      assert after == before;
    }
  }

  lemma NoneReclaimable(t: Tree, protected: set<Key>)
    ensures |ReclaimableAmong(t, protected, {})| == 0
    ensures BlockedAmong(t, protected, {}) == {}
  {
    assert ReclaimableAmong(t, protected, {}) == {};
  }

  lemma AllReclaimable(t: Tree, protected: set<Key>)
    ensures ReclaimableAmong(t, protected, t.Keys) == Reclaimable(t, protected)
  {
  }

  lemma CandidatesInTree(t: Tree, protected: set<Key>)
    ensures Candidates(t, protected) <= t.Keys
  {
  }

  lemma CachedWithout(t: Tree, v: Key)
    requires v in t
    ensures |Cached(t - {v})| == |Cached(t)| - if t[v].block.Some? then 1 else 0
  {
    if t[v].block.Some? {
      assert Cached(t) == Cached(t - {v}) + {v};
    } else {
      assert Cached(t) == Cached(t - {v});
    }
  }

  /** Evicted nodes were held by nobody. */
  lemma UnblockedIsUnreferenced(t: Tree, protected: set<Key>, victims: seq<Key>)
    requires forall v :: v in victims ==> v in t && !Blocked(t, protected, v)
    ensures forall v :: v in victims ==> t[v].references == 0 && v !in protected
    ensures forall v :: v in victims ==> ReferencesAt(t, v) == 0
  {
    forall v | v in victims ensures t[v].references == 0 && v !in protected {
      assert Below(v, v);
    }
  }

  lemma KeysWithout(t: Tree, victims: seq<Key>)
    ensures forall k :: k in Without(t, victims) ==> k in t && Without(t, victims)[k] == t[k]
  {
  }

  predicate LeastOf(m: map<Key, nat>, least: Key) {
    least in m && forall k :: k in m ==> m[least] <= m[k]
  }

  lemma {:induction false} LeastFrequentExists(m: map<Key, nat>, keys: set<Key>) returns (least: Key)
    requires keys != {} && keys <= m.Keys
    ensures least in keys && forall k :: k in keys ==> m[least] <= m[k]
    decreases |keys|
  {
    least :| least in keys;
    if keys != {least} {
      assert keys == (keys - {least}) + {least};
      var other := LeastFrequentExists(m, keys - {least});
      if m[other] < m[least] {
        least := other;
      }
    }
  }

  /** Periodic aging of the sighting counts. */
  function Halved(m: map<Key, nat>): (h: map<Key, nat>)
    ensures h.Keys <= m.Keys && |h| <= |m|
    ensures forall k :: k in h ==> h[k] == m[k] / 2 > 0
    ensures forall k :: k in m && m[k] > 1 ==> k in h
  {
    var h := map k | k in m && m[k] / 2 > 0 :: m[k] / 2;
    Smaller(h.Keys, m.Keys);
    h
  }

  /** What is recorded was seen. */
  ghost predicate Positive(frequency: map<Key, nat>) {
    forall k :: k in frequency ==> frequency[k] > 0
  }

  /** One more sighting of a key was recorded; a full map was aged first, and gave up a least one if that made no room. */
  ghost predicate Recorded(frequency: map<Key, nat>, frequency': map<Key, nat>, key: Key, budget: nat) {
    && key in frequency' && frequency'[key] == (if key in frequency then frequency[key] + 1 else 1)
    && (key in frequency || |frequency| < budget ==> frequency' == frequency[key := frequency'[key]])
    && (key !in frequency && |frequency| >= budget ==>
          var halved := Halved(frequency);
          if |halved| < budget then frequency' == halved[key := 1]
          else exists least :: LeastOf(halved, least) && frequency' == (halved - {least})[key := 1])
  }

  lemma AddedSize(m: map<Key, nat>, k: Key, v: nat)
    ensures |m[k := v]| == |m| + if k in m then 0 else 1
  {
    assert m[k := v].Keys == m.Keys + {k};
  }

  lemma RemovedSize(m: map<Key, nat>, k: Key)
    requires k in m
    ensures |m - {k}| == |m| - 1
  {
    assert m.Keys == (m - {k}).Keys + {k};
  }

  lemma NothingPruned(t: Tree)
    ensures Pruned(t, t)
  {
  }

  lemma PagelessAre(t: Tree)
    ensures forall k :: k in PagelessNodes(t) <==> k in t && t[k].block.None?
    ensures forall k :: k in PagelessLeaves(t) <==> k in PagelessNodes(t) && Leaf(t, k)
    ensures PagelessNodes(t) == t.Keys - Cached(t)
  {
  }

  lemma PrunedAre(t: Tree, removed: set<Key>)
    requires forall k :: k in removed ==> k in t.Keys - Cached(t) && Leaf(t, k)
    ensures Pruned(t, t - removed) && t.Keys - (t - removed).Keys == removed
  {
    hide Leaf;
  }

  /** Every edge of the tree is one complete token block, and a page's node knows how many tokens lead to it. */
  ghost predicate Blocky(t: Tree, blockSize: nat) {
    && (forall k, b :: k in t && b in k.path ==> |b| == blockSize)
    && (forall k :: k in t ==> t[k].prefixTokens == if t[k].block.Some? then Times(|k.path|, blockSize) else 0)
  }

  lemma PathIsBlocky(ns: CacheNamespace, path: seq<TokenBlock>, blockSize: nat)
    requires forall b :: b in path ==> |b| == blockSize
    ensures forall k, b :: OnPath(k, ns, path) && b in k.path ==> |b| == blockSize
  {
    forall k, b | OnPath(k, ns, path) && b in k.path ensures b in path {
      var i :| 0 <= i < |k.path| && k.path[i] == b;
      assert path[i] == b;
    }
  }

  lemma DescendBlocky(t: Tree, ns: CacheNamespace, path: seq<TokenBlock>, blockSize: nat)
    requires Blocky(t, blockSize) && forall b :: b in path ==> |b| == blockSize
    ensures Blocky(Descend(t, ns, path), blockSize)
  {
    PathIsBlocky(ns, path, blockSize);
    PathKeysAre(ns, path);
  }

  lemma FilledBlocky(t: Tree, ns: CacheNamespace, path: seq<TokenBlock>, f: Filling, blockSize: nat)
    requires Blocky(t, blockSize) && (forall b :: b in path ==> |b| == blockSize) && |path| <= |f.blocks| && f.blockSize == blockSize
    ensures Blocky(Filled(t, ns, path, f), blockSize)
  {
    PathIsBlocky(ns, path, blockSize);
    var t' := Filled(t, ns, path, f);
    forall k | k in t'
      ensures t'[k].prefixTokens == if t'[k].block.Some? then Times(|k.path|, blockSize) else 0
      ensures k in t || OnPath(k, ns, path)
    {
      FilledLabel(t, ns, path, f, k);
    }
  }

  lemma FilledLabel(t: Tree, ns: CacheNamespace, path: seq<TokenBlock>, f: Filling, k: Key)
    requires |path| <= |f.blocks| && k in Filled(t, ns, path, f)
    ensures k in t || OnPath(k, ns, path)
    ensures var n := Filled(t, ns, path, f)[k];
            if OnPath(k, ns, path) then n.block.Some? && n.prefixTokens == Times(|k.path|, f.blockSize) else k in t && n == t[k]
  {
    FilledAt(t, ns, path, f, k);
  }

  lemma SubtreeBlocky(t: Tree, t': Tree, blockSize: nat)
    requires Blocky(t, blockSize)
    requires forall k :: k in t' ==> k in t && t'[k].block == t[k].block && t'[k].prefixTokens == t[k].prefixTokens
    ensures Blocky(t', blockSize)
  {
  }

  lemma TouchedBlocky(t: Tree, ns: CacheNamespace, path: seq<TokenBlock>, now: nat, blockSize: nat)
    requires Blocky(t, blockSize)
    ensures Blocky(Touched(t, ns, path, now), blockSize)
  {
  }

  lemma AdjustedBlocky(t: Tree, ns: CacheNamespace, path: seq<TokenBlock>, delta: int, blockSize: nat)
    requires Blocky(t, blockSize)
    ensures Blocky(Adjusted(t, ns, path, delta), blockSize)
  {
  }

  /** Pruning page-less leaves keeps the shape, the pages and the acquisitions. */
  lemma PrunedKeeps(t: Tree, t': Tree, leases: map<int, Key>)
    requires WellFormed(t) && Leased(t, leases) && Pruned(t, t')
    ensures WellFormed(t') && Leased(t', leases) && Cached(t') == Cached(t)
    ensures forall k :: k in t' ==> k in t && t'[k] == t[k]
    ensures forall k :: BlockAt(t', k) == BlockAt(t, k)
  {
    forall k | k in t' && |k.path| > 1 ensures Parent(k) in t' {
      assert IsChild(k, Parent(k));
    }
    forall k | ReferencesAt(t, k) > 0 ensures k in t' {
      BlocklessIsFree(t, leases, k);
    }
    LeasedTransfer(t, t', leases);
  }

  lemma PrunedKeepsAll(t: Tree, t': Tree, budget: nat, blockSize: nat, leases: map<int, Key>)
    requires WellFormed(t) && Leased(t, leases) && Blocky(t, blockSize) && PrunedTo(t, t', budget)
    ensures WellFormed(t') && Leased(t', leases) && Blocky(t', blockSize) && Cached(t') == Cached(t)
  {
    PrunedKeeps(t, t', leases);
    hide WellFormed, Leased, Cached;
    SubtreeBlocky(t, t', blockSize);
  }

  /** Nobody holds a node without a page. */
  lemma BlocklessIsFree(t: Tree, leases: map<int, Key>, k: Key)
    requires WellFormed(t) && Leased(t, leases)
    ensures BlockAt(t, k).None? ==> ReferencesAt(t, k) == 0
  {
    if k in t && t[k].block.None? {
      forall l | l in leases ensures !Below(leases[l], k) {
        if Below(leases[l], k) {
          assert Up(leases[l], |k.path|) == k;
          AncestorIn(t, leases[l], |k.path|);
        }
      }
      assert Through(leases, k) == {};
    }
  }

  lemma NothingToEvict(t: Tree, protected: set<Key>, policy: Policy, now: nat)
    ensures EvictRun(t, protected, policy, now, 0, [])
  {
  }

  /** The pages an insertion is short of are the page-less shared nodes and the new ones. */
  lemma NewPages(t: Tree, ins: Insertion, shared: nat, admitted: nat)
    requires shared <= |ins.path| <= |ins.blocks| && (admitted == |ins.path| || admitted == shared)
    requires forall i :: shared < i <= |ins.path| ==> BlockAt(t, Key(ins.ns, ins.path[..i])).None?
    ensures |MissingBlocks(t, ins.ns, ins.path[..admitted], ins.blocks)| ==
            |MissingBlocks(t, ins.ns, ins.path[..shared], ins.blocks)| + if admitted > shared then |ins.path| - shared else 0
  {
    if admitted > shared {
      assert ins.path[..admitted] == ins.path;
      MissingBeyond(t, ins.ns, ins.path, ins.blocks, shared);
    }
  }

  /** Eviction around a path leaves the pages on it alone. */
  lemma SparedPath(t: Tree, ins: Insertion, shared: nat, admitted: nat, victims: seq<Key>)
    requires shared <= |ins.path| <= |ins.blocks| && admitted <= |ins.path|
    requires forall i :: shared < i <= |ins.path| ==> BlockAt(t, Key(ins.ns, ins.path[..i])).None?
    requires forall v :: v in victims ==> v !in PathKeys(ins.ns, ins.path[..shared])
    ensures MissingBlocks(Without(t, victims), ins.ns, ins.path[..admitted], ins.blocks)
            == MissingBlocks(t, ins.ns, ins.path[..admitted], ins.blocks)
  {
    PathKeysAre(ins.ns, ins.path[..shared]);
    var path := ins.path[..admitted];
    forall m | 0 < m <= |path|
      ensures BlockAt(t, Key(ins.ns, path[..m])) == BlockAt(Without(t, victims), Key(ins.ns, path[..m]))
    {
      assert path[..m] == ins.path[..m];
      if m <= shared {
        assert ins.path[..m] <= ins.path[..shared];
        assert OnPath(Key(ins.ns, ins.path[..m]), ins.ns, ins.path[..shared]);
      }
    }
    MissingSame(t, Without(t, victims), ins.ns, path, ins.blocks);
  }

  lemma AllMissing(t: Tree, ins: Insertion, admitted: nat)
    requires admitted <= |ins.path| <= |ins.blocks| && !HasNamespace(t, ins.ns)
    ensures |MissingBlocks(t, ins.ns, ins.path[..admitted], ins.blocks)| == admitted
  {
    MissingBeyond(t, ins.ns, ins.path[..admitted], ins.blocks, 0);
  }

  // ----- one step of each insertion walk

  lemma DescendNowhere(t: Tree, ns: CacheNamespace)
    ensures Descend(t, ns, []) == t
  {
  }

  lemma DescendStep(t: Tree, ns: CacheNamespace, path: seq<TokenBlock>, i: nat)
    requires i < |path|
    ensures var k := Key(ns, path[..i + 1]);
            && (k in Descend(t, ns, path[..i]) <==> k in t)
            && Descend(t, ns, path[..i + 1]) ==
               if k in t then Descend(t, ns, path[..i]) else Descend(t, ns, path[..i])[k := BLANK_NODE]
  {
    PathKeysAre(ns, path[..i]);
    PathKeysAre(ns, path[..i + 1]);
    forall k {:trigger OnPath(k, ns, path[..i])} ensures OnPath(k, ns, path[..i + 1]) <==> OnPath(k, ns, path[..i]) || k == Key(ns, path[..i + 1]) {
      OnLongerPath(ns, path, i, k);
    }
  }

  lemma FilledNowhere(t: Tree, ns: CacheNamespace, f: Filling)
    ensures Filled(t, ns, [], f) == t && MissingBlocks(t, ns, [], f.blocks) == []
  {
  }

  lemma FillStep(t: Tree, ns: CacheNamespace, path: seq<TokenBlock>, i: nat, f: Filling)
    requires i < |path| <= |f.blocks|
    ensures var k := Key(ns, path[..i + 1]);
            var before, after := Filled(t, ns, path[..i], f), Filled(t, ns, path[..i + 1], f);
            var child := if k in before then before[k] else BLANK_NODE;
            && after == before[k := FillNode(child, f.blocks[i], i + 1, f.now + i, f.frequency, f.blockSize, f.costPerBlock, f.bytesPerBlock)]
            && MissingBlocks(t, ns, path[..i + 1], f.blocks) ==
               MissingBlocks(t, ns, path[..i], f.blocks) + (if child.block.None? then [f.blocks[i]] else [])
  {
    hide FillNode, MissingBlocks, Filled;
    MissingStep(t, ns, path, i, f.blocks);
    FilledStep(t, ns, path, i, f);
  }

  lemma FilledStep(t: Tree, ns: CacheNamespace, path: seq<TokenBlock>, i: nat, f: Filling)
    requires i < |path| <= |f.blocks|
    ensures var k := Key(ns, path[..i + 1]);
            var before, after := Filled(t, ns, path[..i], f), Filled(t, ns, path[..i + 1], f);
            var child := if k in before then before[k] else BLANK_NODE;
            && child.block == BlockAt(t, k)
            && after == before[k := FillNode(child, f.blocks[i], i + 1, f.now + i, f.frequency, f.blockSize, f.costPerBlock, f.bytesPerBlock)]
  {
    hide FillNode, PathKeys, OnPath;
    var k := Key(ns, path[..i + 1]);
    FilledDomain(t, ns, path, i, f);
    PathKeysAre(ns, path[..i]);
    PathKeysAre(ns, path[..i + 1]);
    var before, after := Filled(t, ns, path[..i], f), Filled(t, ns, path[..i + 1], f);
    assert !OnPath(k, ns, path[..i]) && OnPath(k, ns, path[..i + 1]) by {
      StepOntoPath(ns, path, i);
    }
    forall x | x in after && x != k ensures x in before && after[x] == before[x] {
      OnLongerPath(ns, path, i, x);
    }
    assert after.Keys == before.Keys + {k};
  }

  lemma StepOntoPath(ns: CacheNamespace, path: seq<TokenBlock>, i: nat)
    requires i < |path|
    ensures var k := Key(ns, path[..i + 1]); !OnPath(k, ns, path[..i]) && OnPath(k, ns, path[..i + 1])
  {
  }

  lemma FilledDomain(t: Tree, ns: CacheNamespace, path: seq<TokenBlock>, i: nat, f: Filling)
    requires i < |path| <= |f.blocks|
    ensures PathKeys(ns, path[..i + 1]) == PathKeys(ns, path[..i]) + {Key(ns, path[..i + 1])}
  {
    PathKeysAre(ns, path[..i]);
    PathKeysAre(ns, path[..i + 1]);
    forall k | OnPath(k, ns, path[..i]) || OnPath(k, ns, path[..i + 1])
      ensures OnPath(k, ns, path[..i + 1]) <==> OnPath(k, ns, path[..i]) || k == Key(ns, path[..i + 1])
    {
      OnLongerPath(ns, path, i, k);
    }
  }

  lemma MissingStep(t: Tree, ns: CacheNamespace, path: seq<TokenBlock>, i: nat, blocks: seq<int>)
    requires i < |path| <= |blocks|
    ensures MissingBlocks(t, ns, path[..i + 1], blocks) ==
            MissingBlocks(t, ns, path[..i], blocks) + (if BlockAt(t, Key(ns, path[..i + 1])).None? then [blocks[i]] else [])
  {
    assert path[..i + 1][..i] == path[..i];
  }

  lemma CachedUpdate(t: Tree, k: Key, n: Node)
    requires n.block.Some?
    ensures |Cached(t[k := n])| == |Cached(t)| + if BlockAt(t, k).None? then 1 else 0
  {
    if BlockAt(t, k).None? {
      assert Cached(t[k := n]) == Cached(t) + {k};
    } else {
      assert Cached(t[k := n]) == Cached(t);
    }
  }

  /** The blocks of that many leading tokens, if there are as many. */
  function PathOf(tokens: seq<Token>, matchedTokens: nat, blockSize: nat): Option<seq<TokenBlock>>
    requires blockSize > 0
  {
    if matchedTokens / blockSize <= |tokens| / blockSize then Some(Chunks(tokens, blockSize)[..matchedTokens / blockSize]) else None
  }

  /** Every node of a path is referenced, whoever did it. */
  ghost predicate Covered(t: Tree, ns: CacheNamespace, path: seq<TokenBlock>) {
    forall k :: k in t && OnPath(k, ns, path) ==> t[k].references > 0
  }

  /** What a release of a path answers. */
  ghost function Released(t: Tree, ns: CacheNamespace, path: Option<seq<TokenBlock>>): Result<()> {
    if path.None? || !HasNamespace(t, ns) || (path.value != [] && Key(ns, path.value) !in t) then Err(KeyError)
    else if !Covered(t, ns, path.value) then Err(RuntimeError)
    else Ok(())
  }

  /** The tree after a release. */
  function Taken(t: Tree, ns: CacheNamespace, path: Option<seq<TokenBlock>>): Tree {
    if path.None? then t else Adjusted(t, ns, path.value, -1)
  }

  lemma NoPath(t: Tree, ns: CacheNamespace, tokens: seq<Token>, matchedTokens: nat, blockSize: nat)
    requires blockSize > 0 && matchedTokens % blockSize == 0
    ensures PathOf(tokens, matchedTokens, blockSize).None? ==> Released(t, ns, PathOf(tokens, matchedTokens, blockSize)) == Err(KeyError)
    ensures PathOf(tokens, matchedTokens, blockSize) == Some([]) <==> matchedTokens == 0
    ensures PathOf(tokens, matchedTokens, blockSize).None? ==> matchedTokens != 0
  {
    hide Chunks;
  }

  /** What was acquired is there, and referenced all the way. */
  lemma HeldIsCovered(t: Tree, leases: map<int, Key>, lease: int)
    requires WellFormed(t) && Leased(t, leases) && lease in leases
    ensures leases[lease] in t && leases[lease].path != [] && HasNamespace(t, leases[lease].ns)
    ensures forall k :: k in t && OnPath(k, leases[lease].ns, leases[lease].path) ==> t[k].references > 0
    ensures Leased(Adjusted(t, leases[lease].ns, leases[lease].path, -1), leases - {lease})
  {
    ReleaseLeased(t, leases, lease);
  }

  /** References taken without giving up an acquisition leave the counts wrong. */
  lemma TakenFromOthers(t: Tree, leases: map<int, Key>, ns: CacheNamespace, path: seq<TokenBlock>)
    requires Leased(t, leases)
    ensures path == [] ==> Leased(Adjusted(t, ns, path, -1), leases)
    ensures path != [] && Key(ns, path) in t && t[Key(ns, path)].references > 0 ==> !Leased(Adjusted(t, ns, path, -1), leases)
  {
    EmptyPath(t, ns, -1, 0);
    var k := Key(ns, path);
    if path != [] && k in t && t[k].references > 0 {
      assert OnPath(k, ns, path);
      assert Adjusted(t, ns, path, -1)[k].references == t[k].references - 1;
    }
  }

  class PrefixCache {
    const blockSize: nat
    const maxBlocks: Option<nat>
    const policy: Policy
    const maxFrequencyEntries: nat
    var nodes: Tree
    var frequency: map<Key, nat>
    var cachedBlocks: nat
    var clock: nat
    /** Outstanding acquisitions: what each one matched. */
    ghost var leases: map<int, Key>
    /** Pages mapped under a root that an eviction had dropped: counted, but no longer reachable. */
    ghost var lost: seq<int>

    /** Everything but the reference counts. */
    ghost predicate Shaped()
      reads this
    {
      && blockSize > 0
      && maxFrequencyEntries > 0
      && WellFormed(nodes)
      && Blocky(nodes, blockSize)
      && cachedBlocks == |Cached(nodes)| + |lost|
      && (maxBlocks.Some? ==> cachedBlocks <= maxBlocks.value)
      && |frequency| <= maxFrequencyEntries
      && Positive(frequency)
    }

    ghost predicate Valid()
      reads this
    {
      Shaped() && Leased(nodes, leases)
    }

    constructor (blockSize: nat, maxBlocks: Option<nat>, policy: Policy, maxFrequencyEntries: nat)
      requires blockSize > 0 && maxFrequencyEntries > 0
      requires maxBlocks.Some? ==> maxBlocks.value > 0
      ensures Valid()
      ensures this.blockSize == blockSize && this.maxBlocks == maxBlocks && this.policy == policy
      ensures this.maxFrequencyEntries == maxFrequencyEntries
      ensures nodes == map[] && leases == map[] && lost == [] && frequency == map[] && cachedBlocks == 0
    {
      this.blockSize := blockSize;
      this.maxBlocks := maxBlocks;
      this.policy := policy;
      this.maxFrequencyEntries := maxFrequencyEntries;
      nodes := map[];
      frequency := map[];
      cachedBlocks := 0;
      clock := 1;
      leases := map[];
      lost := [];
    }

    // ----- lookup

    /**
     The longest cached block prefix in the namespace. An acquiring match that found
     something holds it under `lease` until it is released.
     */
    method Match(tokens: seq<Token>, ns: CacheNamespace, acquire: bool, ghost lease: int) returns (m: PrefixMatch)
      requires Valid()
      requires acquire ==> lease !in leases
      modifies this`nodes, this`clock, this`leases
      ensures Valid()
      ensures var path := Chunks(tokens, blockSize);
              var n := MatchDepth(old(nodes), ns, path);
              var touched := Touched(old(nodes), ns, path[..n], old(clock));
              && m == PrefixMatch(Times(n, blockSize), m.blockIds, true, [], [])
              && MatchedBlocks(old(nodes), ns, path[..n], m.blockIds)
              && leases == (if acquire && n > 0 then old(leases)[lease := Key(ns, path[..n])] else old(leases))
              && nodes == (if acquire then Adjusted(touched, ns, path[..n], 1) else touched)
    {
      hide Touched, Adjusted, MatchedBlocks, WellFormed, Leased, MatchDepth, OnPath, Cached, Blocky;
      var path := Chunks(tokens, blockSize);
      TouchedBlocky(nodes, ns, path[..MatchDepth(nodes, ns, path)], clock, blockSize);
      ghost var now := clock;
      TouchedKeeps(nodes, ns, path[..MatchDepth(nodes, ns, path)], now);
      TouchedLeased(nodes, ns, path[..MatchDepth(nodes, ns, path)], now, leases);
      var matched := Walk(ns, path);
      var n := |matched|;
      EmptyPath(nodes, ns, 1, clock);
      assert n == 0 ==> path[..n] == [];
      if n > 0 && acquire {
        Acquire(ns, path[..n], lease);
      }
      m := PrefixMatch(Times(n, blockSize), matched, true, [], []);
    }

    method Acquire(ns: CacheNamespace, path: seq<TokenBlock>, ghost lease: int)
      requires Valid()
      requires BlockAt(nodes, Key(ns, path)).Some? && lease !in leases
      modifies this`nodes, this`leases
      ensures Valid()
      ensures nodes == Adjusted(old(nodes), ns, path, 1)
      ensures leases == old(leases)[lease := Key(ns, path)]
    {
      hide Adjusted, Leased, OnPath, Cached, Blocky;
      AcquireLeased(nodes, leases, lease, Key(ns, path));
      AdjustedBlocky(nodes, ns, path, 1, blockSize);
      AdjustedKeeps(nodes, ns, path, 1);
      assert HasNamespace(nodes, Key(ns, path).ns);
      var r := AdjustReferences(ns, path, 1);
      leases := leases[lease := Key(ns, path)];
    }

    /** The walk of a lookup: down while the next node exists and has a page. */
    method Walk(ns: CacheNamespace, path: seq<TokenBlock>) returns (matched: seq<int>)
      requires WellFormed(nodes)
      modifies this`nodes, this`clock
      ensures var n := MatchDepth(old(nodes), ns, path);
              && |matched| == n && clock == old(clock) + n
              && MatchedBlocks(old(nodes), ns, path[..n], matched)
              && nodes == Touched(old(nodes), ns, path[..n], old(clock))
    {
      hide Touched, MatchedBlocks, WellFormed, Leased, MatchDepth, OnPath, Cached;
      ghost var depth := MatchDepth(nodes, ns, path);
      ghost var before := nodes;
      matched := [];
      EmptyPath(before, ns, 1, clock);
      assert path[..0] == [];
      NothingMatched(before, ns);
      while |matched| < |path|
        invariant |matched| <= depth && clock == old(clock) + |matched|
        invariant nodes == Touched(before, ns, path[..|matched|], old(clock))
        invariant MatchedBlocks(before, ns, path[..|matched|], matched)
        decreases |path| - |matched|
      {
        var i := |matched|;
        var k := Key(ns, path[..i + 1]);
        TouchedKeeps(before, ns, path[..i], old(clock));
        if i < depth {
          MatchedPrefix(before, ns, path, i + 1);
        }
        if k !in nodes || nodes[k].block.None? {
          break;
        }
        TouchStep(before, ns, path, i, old(clock));
        MatchedBlocksStep(before, ns, path, matched, nodes[k].block.value);
        var node := nodes[k];
        nodes := nodes[k := node.(lastAccess := clock, hits := node.hits + 1)];
        assert nodes == Touched(before, ns, path[..i + 1], old(clock));
        clock := clock + 1;
        matched := matched + [node.block.value];
      }
    }

    // ----- references

    method HasPath(ns: CacheNamespace, path: seq<TokenBlock>) returns (found: bool)
      requires WellFormed(nodes)
      ensures found == (path == [] || Key(ns, path) in nodes)
      ensures found ==> forall m :: 0 < m <= |path| ==> Key(ns, path[..m]) in nodes
    {
      assert path[..|path|] == path;
      for i := 0 to |path|
        invariant forall m :: 0 < m <= i ==> Key(ns, path[..m]) in nodes
      {
        if Key(ns, path[..i + 1]) !in nodes {
          if Key(ns, path) in nodes {
            AncestorIn(nodes, Key(ns, path), i + 1);
            assert false;
          }
          return false;
        }
      }
      found := true;
    }

    method AllReferenced(ns: CacheNamespace, path: seq<TokenBlock>) returns (ok: bool)
      requires forall m :: 0 < m <= |path| ==> Key(ns, path[..m]) in nodes
      ensures ok <==> forall k :: k in nodes && OnPath(k, ns, path) ==> nodes[k].references > 0
    {
      for i := 0 to |path|
        invariant forall m :: 0 < m <= i ==> nodes[Key(ns, path[..m])].references > 0
      {
        var k := Key(ns, path[..i + 1]);
        if nodes[k].references == 0 {
          assert OnPath(k, ns, path);
          return false;
        }
      }
      forall k | k in nodes && OnPath(k, ns, path) ensures nodes[k].references > 0 {
        PathNode(k, ns, path);
      }
      ok := true;
    }

    /** Walks a path and adds `delta` to its reference counts; on any error nothing changes. */
    method AdjustReferences(ns: CacheNamespace, path: seq<TokenBlock>, delta: int) returns (r: Result<()>)
      requires WellFormed(nodes) && delta in {1, -1}
      modifies this`nodes
      ensures var found := HasNamespace(old(nodes), ns) && (path == [] || Key(ns, path) in old(nodes));
              var held := forall k :: k in old(nodes) && OnPath(k, ns, path) ==> old(nodes)[k].references > 0;
              && r == (if !found then Err(KeyError) else if delta < 0 && !held then Err(RuntimeError) else Ok(()))
              && nodes == (if r.Ok? then Adjusted(old(nodes), ns, path, delta) else old(nodes))
    {
      hide Adjusted, WellFormed;
      if !exists k :: k in nodes.Keys && k.ns == ns {
        return Err(KeyError);
      }
      var found := HasPath(ns, path);
      if !found {
        return Err(KeyError);
      }
      if delta < 0 {
        var held := AllReferenced(ns, path);
        if !held {
          return Err(RuntimeError);
        }
      }
      ghost var before := nodes;
      EmptyPath(before, ns, delta, 0);
      assert path[..0] == [] && path[..|path|] == path;
      for i := 0 to |path|
        invariant nodes == Adjusted(before, ns, path[..i], delta)
      {
        var k := Key(ns, path[..i + 1]);
        assert OnPath(k, ns, path);
        AdjustedKeeps(before, ns, path[..i], delta);
        AdjustStep(before, ns, path, i, delta);
        nodes := nodes[k := nodes[k].(references := nodes[k].references + delta)];
      }
      r := Ok(());
    }

    /**
     Gives an acquisition back. Whatever insertions, prunings and evictions happened
     since the match, the path is still there and its counts are positive: it succeeds.
     What nobody acquired is an error only if some node of its path is missing or not
     referenced; otherwise it takes references of others, and the counts are no longer
     those of the acquisitions.
     */
    method Release(tokens: seq<Token>, matchedTokens: nat, ns: CacheNamespace, ghost lease: int) returns (r: Result<()>)
      requires Valid()
      modifies this`nodes, this`leases
      ensures Shaped()
      ensures r == if matchedTokens % blockSize != 0 then Err(ValueError) else Released(old(nodes), ns, PathOf(tokens, matchedTokens, blockSize))
      ensures nodes == if r.Ok? then Taken(old(nodes), ns, PathOf(tokens, matchedTokens, blockSize)) else old(nodes)
      ensures leases == if r.Ok? && old(HeldBy(lease, tokens, matchedTokens, ns)) then old(leases) - {lease} else old(leases)
      ensures matchedTokens % blockSize == 0 && old(HeldBy(lease, tokens, matchedTokens, ns)) ==> r.Ok?
      ensures Valid() <==> r.Err? || matchedTokens == 0 || old(HeldBy(lease, tokens, matchedTokens, ns))
    {
      hide Taken, WellFormed, Leased, PathOf, Cached, Blocky, Released;
      if matchedTokens % blockSize != 0 {
        return Err(ValueError);
      }
      NoPath(nodes, ns, tokens, matchedTokens, blockSize);
      var path := PathOf(tokens, matchedTokens, blockSize);
      if path.None? {
        return Err(KeyError);
      }
      r := GiveBack(ns, path.value, lease);
    }

    method GiveBack(ns: CacheNamespace, path: seq<TokenBlock>, ghost lease: int) returns (r: Result<()>)
      requires Valid()
      modifies this`nodes, this`leases
      ensures Shaped()
      ensures r == Released(old(nodes), ns, Some(path))
      ensures nodes == if r.Ok? then Taken(old(nodes), ns, Some(path)) else old(nodes)
      ensures var held := lease in old(leases) && old(leases)[lease] == Key(ns, path);
              && leases == (if r.Ok? && held then old(leases) - {lease} else old(leases))
              && (held ==> r.Ok?)
              && (Valid() <==> r.Err? || path == [] || held)
    {
      hide Adjusted, WellFormed, Leased, Cached, Blocky, HasNamespace;
      ghost var held := lease in leases && leases[lease] == Key(ns, path);
      if held {
        HeldIsCovered(nodes, leases, lease);
      } else {
        TakenFromOthers(nodes, leases, ns, path);
      }
      AdjustedKeeps(nodes, ns, path, -1);
      AdjustedBlocky(nodes, ns, path, -1, blockSize);
      r := AdjustReferences(ns, path, -1);
      if r.Ok? && held {
        leases := leases - {lease};
      }
    }

    /** `lease` is an outstanding acquisition of that many leading tokens. */
    ghost predicate HeldBy(lease: int, tokens: seq<Token>, matchedTokens: nat, ns: CacheNamespace)
      requires blockSize > 0
      reads this
    {
      var path := PathOf(tokens, matchedTokens, blockSize);
      path.Some? && lease in leases && leases[lease] == Key(ns, path.value)
    }

    // ----- eviction

    /**
     Evicts unreferenced, unprotected leaves of minimal score until `quota` pages were
     reclaimed or no such leaf is left.
     */
    method EvictLocked(quota: nat, protected: set<Key>) returns (evicted: seq<int>, ghost victims: seq<Key>)
      requires WellFormed(nodes) && |Cached(nodes)| <= cachedBlocks
      modifies this`nodes, this`cachedBlocks, this`clock
      ensures EvictRun(old(nodes), protected, policy, old(clock), quota, victims)
      ensures nodes == Without(old(nodes), victims)
      ensures evicted == EvictedIds(old(nodes), victims)
      ensures clock == old(clock) + |victims|
      ensures cachedBlocks == old(cachedBlocks) - |evicted|
      ensures |Cached(nodes)| == |Cached(old(nodes))| - |evicted|
    {
      hide EvictTurns, EvictedIds, Without, Cached, WellFormed, Candidates;
      ghost var before := nodes;
      evicted := [];
      victims := [];
      NoTurns(before, protected, policy, clock, quota);
      while |evicted| < quota
        invariant EvictTurns(before, protected, policy, old(clock), quota, victims)
        invariant nodes == Without(before, victims) && WellFormed(nodes)
        invariant evicted == EvictedIds(before, victims)
        invariant clock == old(clock) + |victims|
        invariant cachedBlocks == old(cachedBlocks) - |evicted|
        invariant |Cached(nodes)| == |Cached(before)| - |evicted|
        decreases |nodes|
      {
        var candidates := Candidates(nodes, protected);
        CandidatesInTree(nodes, protected);
        if candidates == {} {
          break;
        }
        ghost var least := MinimumExists(nodes, candidates, policy, clock);
        var entries := map k | k in candidates ::
          PrefixEntry(k.ns, nodes[k].prefixTokens, nodes[k].frequency, nodes[k].hits, nodes[k].lastAccess, nodes[k].recomputeCost,
                      nodes[k].bytesPerBlock);
        assert forall k :: k in candidates ==> entries[k] == Entry(k, nodes[k]);
        var victim :| victim in candidates
                      && forall c :: c in candidates ==> policy.score(entries[victim], clock) <= policy.score(entries[c], clock);
        RemoveCandidate(nodes, protected, victim);
        CachedWithout(nodes, victim);
        TurnTaken(before, protected, policy, old(clock), quota, victims, victim);
        if nodes[victim].block.Some? {
          evicted := evicted + [nodes[victim].block.value];
          cachedBlocks := cachedBlocks - 1;
        }
        clock := clock + 1;
        nodes := nodes - {victim};
        victims := victims + [victim];
      }
    }

    /**
     The pages an eviction could reclaim, counted in one pass that visits children
     before parents.
     */
    method CountEvictable(protected: set<Key>) returns (total: nat)
      requires WellFormed(nodes)
      ensures total == |Reclaimable(nodes, protected)|
    {
      hide WellFormed, Evictable, Cached, ReclaimableAmong, BlockedAmong, Blocked, Reclaimable, IsChild;
      var remaining := nodes.Keys;
      var blocked: set<Key> := {};
      ghost var done: set<Key> := {};
      total := 0;
      NoneReclaimable(nodes, protected);
      while remaining != {}
        invariant remaining <= nodes.Keys && done == nodes.Keys - remaining
        invariant blocked == BlockedAmong(nodes, protected, done)
        invariant total == |ReclaimableAmong(nodes, protected, done)|
        decreases |remaining|
      {
        ghost var deepest := ChildlessExists(remaining);
        var k :| k in remaining && forall c :: c in remaining ==> !IsChild(c, k);
        BlockedStep(nodes, protected, k, done);
        var isBlocked := k in protected || nodes[k].references > 0;
        if !isBlocked {
          isBlocked := exists c :: c in blocked && IsChild(c, k);
        }
        ReclaimableStep(nodes, protected, done, k);
        if !isBlocked && nodes[k].block.Some? {
          total := total + 1;
        }
        if isBlocked {
          blocked := blocked + {k};
        }
        done := done + {k};
        remaining := remaining - {k};
      }
      assert done == nodes.Keys;
      AllReclaimable(nodes, protected);
    }

    /** Reclaims up to `max` pages on demand and hands them to the caller. */
    method Evict(max: int) returns (r: Result<seq<int>>, ghost victims: seq<Key>)
      requires Valid()
      modifies this`nodes, this`cachedBlocks, this`clock
      ensures Valid()
      ensures r == Err(ValueError) <==> max <= 0
      ensures r.Err? ==> r.error == ValueError && nodes == old(nodes) && victims == []
      ensures r.Ok? ==>
                && EvictRun(old(nodes), {}, policy, old(clock), max, victims)
                && nodes == Without(old(nodes), victims)
                && r.value == EvictedIds(old(nodes), victims)
                && |r.value| == Min(max, |Reclaimable(old(nodes), {})|)
                && forall v :: v in victims ==> v in old(nodes) && old(nodes)[v].references == 0
    {
      hide WellFormed, EvictRun, Leased, Without, Reclaimable, EvictedIds, Cached, Blocky;
      if max <= 0 {
        return Err(ValueError), [];
      }
      ghost var before := nodes;
      var evicted;
      evicted, victims := EvictLocked(max, {});
      EvictionIsExact(before, {}, policy, old(clock), max, victims);
      UnblockedIsUnreferenced(before, {}, victims);
      WithoutLeased(before, victims, leases);
      KeysWithout(before, victims);
      SubtreeBlocky(before, nodes, blockSize);
      r := Ok(evicted);
    }

    // ----- admission

    /** One more sighting of a key, in a map that never outgrows its budget. */
    method RecordFrequency(key: Key) returns (count: nat)
      requires maxFrequencyEntries > 0 && |frequency| <= maxFrequencyEntries && Positive(frequency)
      modifies this`frequency
      ensures |frequency| <= maxFrequencyEntries && Positive(frequency)
      ensures Recorded(old(frequency), frequency, key, maxFrequencyEntries)
      ensures frequency[key] == count
    {
      if key in frequency {
        count := frequency[key] + 1;
        AddedSize(frequency, key, count);
        frequency := frequency[key := count];
        return;
      }
      if |frequency| >= maxFrequencyEntries {
        assert key !in Halved(frequency);
        var halved := Halved(frequency);
        if |halved| >= maxFrequencyEntries {
          ghost var least := LeastFrequentExists(halved, halved.Keys);
          var leastFrequent :| leastFrequent in halved && forall k :: k in halved ==> halved[leastFrequent] <= halved[k];
          RemovedSize(halved, leastFrequent);
          assert LeastOf(halved, leastFrequent);
          halved := halved - {leastFrequent};
        }
        frequency := halved;
      }
      AddedSize(frequency, key, 1);
      frequency := frequency[key := 1];
      count := 1;
    }

    /**
     Drops page-less leaves beyond the metadata budget, in one pass: `BudgetHoldsIff`
     says when that is enough.
     */
    method PruneBlocklessLeaves()
      requires WellFormed(nodes)
      modifies this`nodes
      ensures PrunedTo(old(nodes), nodes, maxFrequencyEntries)
    {
      hide Pruned, Leaf, Cached, WellFormed, PagelessNodes, PagelessLeaves;
      NothingPruned(nodes);
      PagelessAre(nodes);
      var blockless := nodes.Keys - Cached(nodes);
      var excess := |blockless| - maxFrequencyEntries;
      if excess <= 0 {
        assert nodes.Keys - nodes.Keys == {};
        return;
      }
      var leaves := set k | k in blockless && Leaf(nodes, k);
      assert leaves == PagelessLeaves(nodes);
      var removed := SomeOf(leaves, excess);
      PrunedAre(nodes, removed);
      nodes := nodes - removed;
    }

    /** So many of some nodes, or all of them. */
    method SomeOf(all: set<Key>, n: nat) returns (some: set<Key>)
      ensures some <= all && |some| == Min(n, |all|)
    {
      var rest := all;
      some := {};
      while |some| < n && rest != {}
        invariant some !! rest && some + rest == all && |some| <= n
        decreases |rest|
      {
        var k :| k in rest;
        rest := rest - {k};
        some := some + {k};
      }
      Smaller(some, all);
      assert rest == {} ==> some == all;
    }

    // ----- insertion

    /** Walks down a path, creating the nodes that are missing; returns how many were there. */
    method DescendPath(ns: CacheNamespace, path: seq<TokenBlock>) returns (shared: nat)
      requires WellFormed(nodes)
      modifies this`nodes
      ensures nodes == Descend(old(nodes), ns, path)
      ensures shared == ExistingDepth(old(nodes), ns, path)
    {
      hide WellFormed, ExistingDepth, Descend;
      ghost var before := nodes;
      ghost var depth := ExistingDepth(before, ns, path);
      shared := 0;
      assert path[..0] == [] && path[..|path|] == path;
      DescendNowhere(before, ns);
      for i := 0 to |path|
        invariant nodes == Descend(before, ns, path[..i])
        invariant shared == Min(i, depth)
      {
        var k := Key(ns, path[..i + 1]);
        DescendStep(before, ns, path, i);
        if i < depth {
          ExistingPrefix(before, ns, path, i + 1);
        }
        if k !in nodes {
          nodes := nodes[k := BLANK_NODE];
        } else {
          shared := shared + 1;
        }
      }
    }

    /** Maps the blocks of an admitted path; a node that has a page keeps it. */
    method FillPath(ns: CacheNamespace, path: seq<TokenBlock>, f: Filling) returns (inserted: seq<int>)
      requires WellFormed(nodes) && |path| <= |f.blocks| && f.now == clock
      modifies this`nodes, this`clock, this`cachedBlocks
      ensures nodes == Filled(old(nodes), ns, path, f)
      ensures inserted == MissingBlocks(old(nodes), ns, path, f.blocks)
      ensures cachedBlocks == old(cachedBlocks) + |inserted|
      ensures |Cached(nodes)| == |Cached(old(nodes))| + |inserted|
      ensures clock == old(clock) + |path|
    {
      hide WellFormed, Filled, MissingBlocks, FillNode, Cached;
      ghost var before := nodes;
      inserted := [];
      assert path[..0] == [] && path[..|path|] == path;
      FilledNowhere(before, ns, f);
      for i := 0 to |path|
        invariant nodes == Filled(before, ns, path[..i], f)
        invariant inserted == MissingBlocks(before, ns, path[..i], f.blocks)
        invariant cachedBlocks == old(cachedBlocks) + |inserted|
        invariant |Cached(nodes)| == |Cached(before)| + |inserted|
        invariant clock == f.now + i
      {
        var k := Key(ns, path[..i + 1]);
        FillStep(before, ns, path, i, f);
        var child := if k in nodes then nodes[k] else BLANK_NODE;
        CachedUpdate(nodes, k, FillNode(child, f.blocks[i], i + 1, clock, f.frequency, f.blockSize, f.costPerBlock, f.bytesPerBlock));
        if child.block.None? {
          inserted := inserted + [f.blocks[i]];
          cachedBlocks := cachedBlocks + 1;
        }
        nodes := nodes[k := FillNode(child, f.blocks[i], i + 1, clock, f.frequency, f.blockSize, f.costPerBlock, f.bytesPerBlock)];
        clock := clock + 1;
      }
    }

    /** The nodes an insertion must not evict: those of its path that were already there. */
    static function Protected(t: Tree, ins: Insertion): set<Key> {
      PathKeys(ins.ns, ins.path[..ExistingDepth(t, ins.ns, ins.path)])
    }

    /** The sightings of an insertion: of the shared prefix if there is one, else of the whole path. */
    static function FrequencyKey(t: Tree, ins: Insertion): Key {
      var shared := ExistingDepth(t, ins.ns, ins.path);
      Key(ins.ns, if shared > 0 then ins.path[..shared] else ins.path)
    }

    function Sightings(t: Tree, frequency: map<Key, nat>, ins: Insertion): nat {
      var key := FrequencyKey(t, ins);
      if key in frequency then frequency[key] + 1
      // The tree path itself proves one earlier sighting of a shared prefix.
      else if ExistingDepth(t, ins.ns, ins.path) > 0 then 2
      else 1
    }

    /** The blocks the policy admits of an insertion into `t`. */
    function AdmittedOf(t: Tree, frequency: map<Key, nat>, ins: Insertion): (n: nat)
      requires blockSize > 0
      ensures n <= |ins.path|
    {
      AdmittedBlocks(policy, ins.ns, ins.path, ExistingDepth(t, ins.ns, ins.path), Sightings(t, frequency, ins), blockSize,
                     ins.recomputeCost, ins.bytesPerBlock, maxBlocks)
    }

    /** Pages to reclaim before `admitted` blocks fit the cache. */
    function Quota(t: Tree, cached: nat, ins: Insertion, admitted: nat): nat
      requires admitted <= |ins.path| <= |ins.blocks|
    {
      if maxBlocks.None? then 0
      else Max(0, cached + |MissingBlocks(t, ins.ns, ins.path[..admitted], ins.blocks)| - maxBlocks.value)
    }

    function FillingOf(ins: Insertion, admitted: nat, frequency: nat, now: nat): Filling
      requires 0 < admitted <= |ins.path|
    {
      var cost := Candidate(ins.ns, ins.path, admitted, frequency, blockSize, ins.recomputeCost, ins.bytesPerBlock, maxBlocks).recomputeCost;
      Filling(ins.blocks, now, frequency, blockSize, cost / admitted as real, ins.bytesPerBlock)
    }

    /** The tree an admitted insertion leaves behind. */
    function Inserted(t: Tree, frequency: map<Key, nat>, now: nat, ins: Insertion, run: InsertRun): Tree
      requires blockSize > 0 && run.Admitted? && 0 < run.blocks <= |ins.path| <= |ins.blocks|
    {
      var t' := Without(Descend(t, ins.ns, ins.path), run.victims);
      if run.rootDropped then t'
      else Filled(t', ins.ns, ins.path[..run.blocks],
                  FillingOf(ins, run.blocks, Sightings(t, frequency, ins), now + |run.victims|))
    }

    /** What an admitted insertion reports as its own pages. */
    static function InsertedIds(t: Tree, ins: Insertion, run: InsertRun): seq<int>
      requires run.Admitted? && run.blocks <= |ins.path| <= |ins.blocks|
    {
      if run.rootDropped then ins.blocks[..run.blocks]
      else MissingBlocks(t, ins.ns, ins.path[..run.blocks], ins.blocks)
    }

    /**
     An insertion is rejected exactly when the policy admits none of it, or when the
     pages it is short of exceed what can be evicted around it. Otherwise it evicts
     what it is short of and maps its blocks; if that eviction emptied its namespace,
     the walk goes on below a root the index no longer holds.
     */
    ghost predicate InsertOutcome(
      t: Tree, frequency: map<Key, nat>, now: nat, cached: nat, ins: Insertion, run: InsertRun, m: PrefixMatch)
      requires blockSize > 0 && |ins.path| <= |ins.blocks|
    {
      var admitted := AdmittedOf(t, frequency, ins);
      var quota := Quota(t, cached, ins, admitted);
      var grown := Descend(t, ins.ns, ins.path);
      && (run.Rejected? <==> admitted == 0 || quota > |Reclaimable(grown, Protected(t, ins))|)
      && (run.Rejected? ==> m == PrefixMatch(0, [], false, [], []))
      && (run.Admitted? ==>
            && run.blocks == admitted > 0
            && run.quota == quota
            && EvictRun(grown, Protected(t, ins), policy, now, quota, run.victims)
            && (run.rootDropped <==> !HasNamespace(Without(grown, run.victims), ins.ns))
            && m == PrefixMatch(Times(admitted, blockSize), ins.blocks[..admitted], true,
                                EvictedIds(grown, run.victims), InsertedIds(t, ins, run)))
    }

    /** A refusal by the policy prunes what the walk added; one for want of room leaves all of it. */
    ghost predicate PrunedByPolicy(t: Tree, frequency: map<Key, nat>, ins: Insertion, t': Tree)
      requires blockSize > 0
    {
      var grown := Descend(t, ins.ns, ins.path);
      if AdmittedOf(t, frequency, ins) == 0 then PrunedTo(grown, t', maxFrequencyEntries) else t' == grown
    }

    lemma PrunedAnyway(t: Tree, frequency: map<Key, nat>, ins: Insertion, t': Tree)
      requires blockSize > 0 && PrunedByPolicy(t, frequency, ins, t')
      ensures Pruned(Descend(t, ins.ns, ins.path), t')
    {
      NothingPruned(t');
    }

    /**
     Evicts what `admitted` blocks are short of, sparing the nodes of the path that
     were there before; refuses, evicting nothing, if that is more than can be evicted.
     */
    method MakeRoom(ins: Insertion, shared: nat, admitted: nat)
      returns (ok: bool, evicted: seq<int>, ghost quota: nat, ghost victims: seq<Key>)
      requires Valid()
      requires 0 < admitted <= |ins.path| <= |ins.blocks| && (admitted == |ins.path| || admitted == shared)
      requires shared <= |ins.path| && forall i :: shared < i <= |ins.path| ==> BlockAt(nodes, Key(ins.ns, ins.path[..i])).None?
      modifies this`nodes, this`clock, this`cachedBlocks
      ensures WellFormed(nodes) && Leased(nodes, leases) && Blocky(nodes, blockSize)
      ensures cachedBlocks == |Cached(nodes)| + |lost|
      ensures quota == Quota(old(nodes), old(cachedBlocks), ins, admitted)
      ensures ok <==> quota <= |Reclaimable(old(nodes), PathKeys(ins.ns, ins.path[..shared]))|
      ensures !ok ==> nodes == old(nodes) && clock == old(clock) && cachedBlocks == old(cachedBlocks)
      ensures ok ==>
                && EvictRun(old(nodes), PathKeys(ins.ns, ins.path[..shared]), policy, old(clock), quota, victims)
                && nodes == Without(old(nodes), victims)
                && evicted == EvictedIds(old(nodes), victims)
                && clock == old(clock) + |victims|
                && MissingBlocks(nodes, ins.ns, ins.path[..admitted], ins.blocks) == MissingBlocks(old(nodes), ins.ns, ins.path[..admitted], ins.blocks)
                && (maxBlocks.Some? ==>
                      cachedBlocks + |MissingBlocks(old(nodes), ins.ns, ins.path[..admitted], ins.blocks)| <= maxBlocks.value)
    {
      hide WellFormed, Leased, Blocky, EvictRun, Reclaimable, Without, EvictedIds, Cached, MissingBlocks, PathKeys, Blocked;
      var protected := PathKeys(ins.ns, ins.path[..shared]);
      ghost var before := nodes;
      ghost var missing := |MissingBlocks(before, ins.ns, ins.path[..admitted], ins.blocks)|;
      evicted, victims, quota := [], [], 0;
      NoTurns(before, protected, policy, clock, 0);
      NothingToEvict(before, protected, policy, clock);
      if maxBlocks.Some? {
        NewPages(before, ins, shared, admitted);
        var refillable := |MissingBlocks(nodes, ins.ns, ins.path[..shared], ins.blocks)|;
        var newCached := refillable + if admitted > shared then |ins.path| - shared else 0;
        var required := Max(0, cachedBlocks + newCached - maxBlocks.value);
        quota := required;
        var available := CountEvictable(protected);
        if required > available {
          return false, [], quota, [];
        }
        evicted, victims := EvictLocked(required, protected);
        EvictionIsExact(before, protected, policy, old(clock), required, victims);
        UnblockedIsUnreferenced(before, protected, victims);
        WithoutLeased(before, victims, leases);
        KeysWithout(before, victims);
        SubtreeBlocky(before, nodes, blockSize);
        SparedPath(before, ins, shared, admitted, victims);
      }
      ok := true;
    }

    /** Maps the admitted blocks; below a dropped root they are counted but stay out of the index. */
    method Place(ins: Insertion, admitted: nat, sightings: nat, rootDropped: bool) returns (inserted: seq<int>)
      requires blockSize > 0 && maxFrequencyEntries > 0 && |frequency| <= maxFrequencyEntries && Positive(frequency)
      requires WellFormed(nodes) && Leased(nodes, leases) && Blocky(nodes, blockSize)
      requires cachedBlocks == |Cached(nodes)| + |lost|
      requires 0 < admitted <= |ins.path| <= |ins.blocks| && forall b :: b in ins.path ==> |b| == blockSize
      requires maxBlocks.Some? ==>
                 cachedBlocks + |MissingBlocks(nodes, ins.ns, ins.path[..admitted], ins.blocks)| <= maxBlocks.value
      requires rootDropped ==> !HasNamespace(nodes, ins.ns)
      modifies this
      ensures Valid() && leases == old(leases) && frequency == old(frequency)
      ensures rootDropped ==>
                && nodes == old(nodes) && inserted == ins.blocks[..admitted] && lost == old(lost) + inserted
      ensures !rootDropped ==>
                && lost == old(lost)
                && nodes == Filled(old(nodes), ins.ns, ins.path[..admitted], FillingOf(ins, admitted, sightings, old(clock)))
                && inserted == MissingBlocks(old(nodes), ins.ns, ins.path[..admitted], ins.blocks)
    {
      hide WellFormed, Leased, Blocky, Filled, Cached, MissingBlocks;
      if rootDropped {
        AllMissing(nodes, ins, admitted);
        inserted := ins.blocks[..admitted];
        cachedBlocks := cachedBlocks + admitted;
        clock := clock + admitted;
        lost := lost + inserted;
      } else {
        var f := FillingOf(ins, admitted, sightings, clock);
        FilledWellFormed(nodes, ins.ns, ins.path[..admitted], f);
        FilledLeased(nodes, ins.ns, ins.path[..admitted], f, leases);
        FilledBlocky(nodes, ins.ns, ins.path[..admitted], f, blockSize);
        inserted := FillPath(ins.ns, ins.path[..admitted], f);
      }
    }

    /** The first walk of an insertion, its sighting, and the policy's verdict. */
    method BeginInsert(ins: Insertion) returns (shared: nat, sightings: nat, admitted: nat)
      requires Valid()
      requires forall b :: b in ins.path ==> |b| == blockSize
      modifies this`nodes, this`frequency
      ensures Valid()
      ensures nodes == Descend(old(nodes), ins.ns, ins.path)
      ensures shared == ExistingDepth(old(nodes), ins.ns, ins.path)
      ensures var key := Key(ins.ns, if shared > 0 then ins.path[..shared] else ins.path);
              && sightings == (if key in old(frequency) then old(frequency)[key] + 1 else if shared > 0 then 2 else 1)
              && Recorded(old(frequency), frequency, key, maxFrequencyEntries)
      ensures sightings == Sightings(old(nodes), old(frequency), ins)
      ensures admitted == AdmittedOf(old(nodes), old(frequency), ins)
    {
      hide WellFormed, Leased, Descend, Cached, AdmittedBlocks, ExistingDepth, Blocky, Recorded;
      ghost var before := nodes;
      shared := DescendPath(ins.ns, ins.path);
      DescendKeeps(before, ins.ns, ins.path);
      DescendLeased(before, ins.ns, ins.path, leases);
      DescendBlocky(before, ins.ns, ins.path, blockSize);
      var key := Key(ins.ns, if shared > 0 then ins.path[..shared] else ins.path);
      var firstRecording := key !in frequency;
      sightings := RecordFrequency(key);
      if shared > 0 && firstRecording {
        sightings := sightings + 1;
      }
      admitted := AdmittedBlocks(policy, ins.ns, ins.path, shared, sightings, blockSize,
                                 ins.recomputeCost, ins.bytesPerBlock, maxBlocks);
    }

    method RejectInsert()
      requires Valid()
      modifies this`nodes
      ensures Valid() && PrunedTo(old(nodes), nodes, maxFrequencyEntries)
    {
      hide WellFormed, Leased, Cached, Blocky, PrunedTo;
      ghost var before := nodes;
      PruneBlocklessLeaves();
      PrunedKeepsAll(before, nodes, maxFrequencyEntries, blockSize, leases);
    }

    /** The admitted half of an insertion into `t`, whose first walk left `nodes`. */
    method CommitInsert(ins: Insertion, shared: nat, sightings: nat, admitted: nat, ghost t: Tree, ghost sightingsBefore: map<Key, nat>)
      returns (m: PrefixMatch, ghost run: InsertRun)
      requires Valid() && WellFormed(t)
      requires 0 < |ins.path| <= |ins.blocks| && forall b :: b in ins.path ==> |b| == blockSize
      requires nodes == Descend(t, ins.ns, ins.path)
      requires shared == ExistingDepth(t, ins.ns, ins.path)
      requires sightings == Sightings(t, sightingsBefore, ins)
      requires admitted == AdmittedOf(t, sightingsBefore, ins) > 0
      modifies this
      ensures Valid() && leases == old(leases) && frequency == old(frequency)
      ensures InsertOutcome(t, sightingsBefore, old(clock), old(cachedBlocks), ins, run, m)
      ensures run.Rejected? ==> nodes == old(nodes) && lost == old(lost)
      ensures run.Admitted? ==>
                && nodes == Inserted(t, sightingsBefore, old(clock), ins, run)
                && lost == old(lost) + if run.rootDropped then m.insertedBlockIds else []
    {
      hide WellFormed, Leased, Descend, EvictRun, Reclaimable, Filled, Cached, MissingBlocks, Blocky, HasNamespace, Without, EvictedIds,
           Sightings, AdmittedOf, Quota, ExistingDepth, FillingOf, PathKeys;
      DescendKeeps(t, ins.ns, ins.path);
      SameMissing(t, ins, cachedBlocks, admitted);
      AdmittedIs(t, sightingsBefore, ins);
      var ok, evicted;
      ghost var quota, victims;
      ok, evicted, quota, victims := MakeRoom(ins, shared, admitted);
      if !ok {
        m, run := PrefixMatch(0, [], false, [], []), Rejected;
        return;
      }
      var rootDropped := HasNoNode(ins.ns);
      var inserted := Place(ins, admitted, sightings, rootDropped);
      m := PrefixMatch(Times(admitted, blockSize), ins.blocks[..admitted], true, evicted, inserted);
      run := Admitted(admitted, quota, victims, rootDropped);
    }

    /** The first walk changes neither the missing pages nor the quota. */
    lemma SameMissing(t: Tree, ins: Insertion, cached: nat, admitted: nat)
      requires WellFormed(t) && admitted <= |ins.path| <= |ins.blocks|
      ensures var grown := Descend(t, ins.ns, ins.path);
              && MissingBlocks(t, ins.ns, ins.path[..admitted], ins.blocks) == MissingBlocks(grown, ins.ns, ins.path[..admitted], ins.blocks)
              && Quota(t, cached, ins, admitted) == Quota(grown, cached, ins, admitted)
    {
      DescendKeeps(t, ins.ns, ins.path);
      MissingSame(t, Descend(t, ins.ns, ins.path), ins.ns, ins.path[..admitted], ins.blocks);
    }

    lemma AdmittedIs(t: Tree, frequency: map<Key, nat>, ins: Insertion)
      requires blockSize > 0
      ensures var n := AdmittedOf(t, frequency, ins);
              && (n == 0 || n == |ins.path| || n == ExistingDepth(t, ins.ns, ins.path))
              && ExistingDepth(t, ins.ns, ins.path) <= |ins.path|
              && forall i :: ExistingDepth(t, ins.ns, ins.path) < i <= |ins.path| ==> BlockAt(t, Key(ins.ns, ins.path[..i])).None?
    {
    }

    method HasNoNode(ns: CacheNamespace) returns (none: bool)
      ensures none <==> !HasNamespace(nodes, ns)
    {
      none := !exists k :: k in nodes.Keys && k.ns == ns;
    }

    /** Everything an insertion does under the cache lock. */
    method InsertLocked(ins: Insertion) returns (m: PrefixMatch, ghost run: InsertRun)
      requires Valid()
      requires 0 < |ins.path| <= |ins.blocks| && forall b :: b in ins.path ==> |b| == blockSize
      modifies this
      ensures Valid() && leases == old(leases)
      ensures Recorded(old(frequency), frequency, FrequencyKey(old(nodes), ins), maxFrequencyEntries)
      ensures InsertOutcome(old(nodes), old(frequency), old(clock), old(cachedBlocks), ins, run, m)
      ensures run.Rejected? ==> lost == old(lost) && PrunedByPolicy(old(nodes), old(frequency), ins, nodes)
      ensures run.Admitted? ==>
                && nodes == Inserted(old(nodes), old(frequency), old(clock), ins, run)
                && lost == old(lost) + if run.rootDropped then m.insertedBlockIds else []
    {
      hide Recorded, Descend, AdmittedOf, Sightings, Quota, Inserted, Pruned, EvictRun, Reclaimable, Protected, ExistingDepth, HasNamespace, Cached, Blocky, Leased;
      ghost var t, sightingsBefore := nodes, frequency;
      var shared, sightings, admitted := BeginInsert(ins);
      if admitted == 0 {
        m, run := PrefixMatch(0, [], false, [], []), Rejected;
        RejectInsert();
      } else {
        NothingPruned(nodes);
        m, run := CommitInsert(ins, shared, sightings, admitted, t, sightingsBefore);
      }
    }

    method Insert(tokens: seq<Token>, blocks: seq<int>, ns: CacheNamespace, recomputeCost: Option<real>, bytesPerBlock: int)
      returns (r: Result<PrefixMatch>, ghost run: InsertRun)
      requires Valid()
      modifies this
      ensures Valid() && leases == old(leases)
      ensures r == Err(ValueError) <==> (recomputeCost.Some? && recomputeCost.value < 0.0) || bytesPerBlock <= 0
      ensures r.Err? ==> r.error == ValueError
      ensures r.Err? || InsertPath(tokens, blocks, blockSize) == [] ==>
                nodes == old(nodes) && lost == old(lost) && cachedBlocks == old(cachedBlocks) && (r.Ok? ==> r.value == NO_MATCH)
      ensures r.Ok? && InsertPath(tokens, blocks, blockSize) != [] ==>
                var ins := Insertion(ns, InsertPath(tokens, blocks, blockSize), blocks, recomputeCost, bytesPerBlock);
                && Recorded(old(frequency), frequency, FrequencyKey(old(nodes), ins), maxFrequencyEntries)
                && InsertOutcome(old(nodes), old(frequency), old(clock), old(cachedBlocks), ins, run, r.value)
                && (run.Rejected? ==> lost == old(lost) && PrunedByPolicy(old(nodes), old(frequency), ins, nodes))
                && (run.Admitted? ==>
                      && nodes == Inserted(old(nodes), old(frequency), old(clock), ins, run)
                      && lost == old(lost) + if run.rootDropped then r.value.insertedBlockIds else [])
    {
      if recomputeCost.Some? && recomputeCost.value < 0.0 {
        return Err(ValueError), Rejected;
      }
      if bytesPerBlock <= 0 {
        return Err(ValueError), Rejected;
      }
      var path := InsertPath(tokens, blocks, blockSize);
      if path == [] {
        return Ok(NO_MATCH), Rejected;
      }
      var m;
      m, run := InsertLocked(Insertion(ns, path, blocks, recomputeCost, bytesPerBlock));
      r := Ok(m);
    }
  }
}
