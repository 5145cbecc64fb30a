/**
 The reference-counted allocator of KV page identities.

 A page is free exactly when nobody refers to it. Requests refer to pages through
 their allocation; any other reference (a prefix cache, say) is "external", and no
 operation of a request changes it.
 */
module BlockManager {
  import opened Basics

  datatype BlockAllocation = BlockAllocation(
    requestId: int,
    blockIds: seq<int>,
    numTokens: nat,
    reservedTokens: nat,
    prefixBlocks: nat)

  type Allocations = map<int, BlockAllocation>

  predicate Ascending(s: seq<int>) {
    forall i, j :: 0 <= i < j < |s| ==> s[i] < s[j]
  }

  /** The least number of pages that covers a token count. */
  function BlocksRequired(numTokens: nat, blockSize: nat): (required: nat)
    requires blockSize > 0
    ensures numTokens <= required * blockSize < numTokens + blockSize
  {
    (numTokens + blockSize - 1) / blockSize
  }

  lemma BlocksRequiredMonotone(a: nat, b: nat, blockSize: nat)
    requires blockSize > 0 && a <= b
    ensures BlocksRequired(a, blockSize) <= BlocksRequired(b, blockSize)
  {
    var x, y := BlocksRequired(a, blockSize), BlocksRequired(b, blockSize);
    if x > y {
      MulMonotone(y + 1, x, blockSize);
      assert false;
    }
  }

  // ----- who refers to a page

  /** The requests whose allocation lists a page. */
  ghost function Holders(allocations: Allocations, b: int): set<int> {
    set r | r in allocations && b in allocations[r].blockIds
  }

  function Lists(allocations: Allocations, r: int, b: int): nat {
    if r in allocations && b in allocations[r].blockIds then 1 else 0
  }

  lemma HoldersRemove(allocations: Allocations, r: int, b: int)
    ensures |Holders(allocations - {r}, b)| == |Holders(allocations, b)| - Lists(allocations, r, b)
  {
    var before, after := Holders(allocations, b), Holders(allocations - {r}, b);
    if r in before {
      assert before == after + {r};
    } else {
      assert before == after;
    }
  }

  lemma HoldersUpdate(allocations: Allocations, r: int, a: BlockAllocation, b: int)
    ensures |Holders(allocations[r := a], b)| ==
            |Holders(allocations, b)| - Lists(allocations, r, b) + (if b in a.blockIds then 1 else 0)
  {
    HoldersRemove(allocations, r, b);
    var before, others, after := allocations[r := a], Holders(allocations - {r}, b), Holders(allocations[r := a], b);
    forall q ensures q in after <==> q in others || (q == r && b in a.blockIds) {
      assert q != r && q in before ==> before[q] == (allocations - {r})[q];
    }
    assert r !in others;
    assert after == others + if b in a.blockIds then {r} else {};
  }

  lemma ListedIsHeld(allocations: Allocations, r: int, b: int)
    requires r in allocations && b in allocations[r].blockIds
    ensures |Holders(allocations, b)| > 0
  {
    assert r in Holders(allocations, b);
  }

  // ----- the allocator's books

  /** The part of the allocator's own audit that concerns one request. */
  ghost predicate Sound(numBlocks: nat, blockSize: nat, r: int, a: BlockAllocation) {
    && a.requestId == r
    && Distinct(a.blockIds)
    && (forall b :: b in a.blockIds ==> 0 <= b < numBlocks)
    && a.numTokens <= a.reservedTokens
    && blockSize > 0
    && BlocksRequired(a.reservedTokens, blockSize) <= |a.blockIds|
    && a.prefixBlocks <= |a.blockIds|
  }

  /** How many of these pages nobody else refers to. */
  function Freed(ids: seq<int>, refcounts: seq<nat>): nat {
    if ids == [] then 0
    else
      var n, last := |ids| - 1, ids[|ids| - 1];
      Freed(ids[..n], refcounts) + if 0 <= last < |refcounts| && refcounts[last] == 1 then 1 else 0
  }

  lemma FreedNone(ids: seq<int>, refcounts: seq<nat>)
    ensures Freed(ids[..0], refcounts) == 0
  {
  }

  lemma FreedNext(ids: seq<int>, i: nat, refcounts: seq<nat>)
    requires i < |ids| && 0 <= ids[i] < |refcounts|
    ensures Freed(ids[..i + 1], refcounts) == Freed(ids[..i], refcounts) + if refcounts[ids[i]] == 1 then 1 else 0
  {
    assert ids[..i + 1][..i] == ids[..i];
  }

  ghost predicate FreeList(numBlocks: nat, free: seq<int>, refcounts: seq<nat>) {
    && |refcounts| == numBlocks
    && Ascending(free)
    && (forall b :: b in free ==> 0 <= b < numBlocks)
    && (forall b :: 0 <= b < numBlocks ==> (b in free <==> refcounts[b] == 0))
  }

  ghost predicate Consistent(numBlocks: nat, blockSize: nat, headroom: nat, free: seq<int>, refcounts: seq<nat>, allocations: Allocations) {
    && blockSize > 0
    && headroom < numBlocks
    && FreeList(numBlocks, free, refcounts)
    && headroom <= |free|
    && (forall b :: 0 <= b < numBlocks ==> |Holders(allocations, b)| <= refcounts[b])
    && (forall r :: r in allocations ==> Sound(numBlocks, blockSize, r, allocations[r]))
  }

  lemma ListedIsReferenced(numBlocks: nat, blockSize: nat, headroom: nat, free: seq<int>, refcounts: seq<nat>, allocations: Allocations)
    requires Consistent(numBlocks, blockSize, headroom, free, refcounts, allocations)
    ensures forall r, b :: r in allocations && b in allocations[r].blockIds ==> refcounts[b] > 0 && b !in free
  {
    forall r, b | r in allocations && b in allocations[r].blockIds ensures refcounts[b] > 0 {
      assert Sound(numBlocks, blockSize, r, allocations[r]);
      ListedIsHeld(allocations, r, b);
    }
  }

  lemma FreeSplit(free: seq<int>, k: nat)
    requires Ascending(free) && k <= |free|
    ensures Ascending(free[k..]) && Ascending(free[..k])
    ensures forall b :: b in free <==> (b in free[..k] || b in free[k..])
    ensures forall b :: b in free[..k] ==> b !in free[k..]
  {
    assert free == free[..k] + free[k..];
  }

  lemma DistinctAppend(x: seq<int>, y: seq<int>)
    requires Distinct(x) && Distinct(y) && forall b :: b in y ==> b !in x
    ensures Distinct(x + y)
  {
    forall i, j | 0 <= i < j < |x + y| ensures (x + y)[i] != (x + y)[j] {
      if i < |x| <= j {
        var b := y[j - |x|];
        assert b in y;
      }
    }
  }

  /** No page changed the number of references no allocation accounts for. */
  ghost predicate SameExternal(numBlocks: nat, refcounts: seq<nat>, allocations: Allocations, refcounts': seq<nat>, allocations': Allocations) {
    && |refcounts| == |refcounts'| == numBlocks
    && forall b :: 0 <= b < numBlocks ==>
         refcounts'[b] - |Holders(allocations', b)| == refcounts[b] - |Holders(allocations, b)|
  }

  /** Handing a request the first `k` free pages keeps the books, and every external count. */
  lemma Grant(
    numBlocks: nat, blockSize: nat, headroom: nat, free: seq<int>, refcounts: seq<nat>, allocations: Allocations,
    r: int, base: seq<int>, k: nat, a: BlockAllocation, refcounts': seq<nat>)
    requires Consistent(numBlocks, blockSize, headroom, free, refcounts, allocations)
    requires k + headroom <= |free|
    requires Distinct(base) && forall b :: b in base ==> 0 <= b < numBlocks && refcounts[b] > 0
    requires r in allocations ==> base == allocations[r].blockIds
    requires a.blockIds == base + free[..k] && a.requestId == r && a.numTokens <= a.reservedTokens
    requires BlocksRequired(a.reservedTokens, blockSize) <= |a.blockIds| && a.prefixBlocks <= |a.blockIds|
    requires |refcounts'| == numBlocks
    requires forall b :: 0 <= b < numBlocks ==>
               refcounts'[b] == refcounts[b] - Lists(allocations, r, b) + (if b in a.blockIds then 1 else 0)
    ensures Consistent(numBlocks, blockSize, headroom, free[k..], refcounts', allocations[r := a])
    ensures SameExternal(numBlocks, refcounts, allocations, refcounts', allocations[r := a])
  {
    FreeSplit(free, k);
    forall b | b in free[..k] ensures b !in base {
      assert b in free;
    }
    DistinctAppend(base, free[..k]);
    forall b | 0 <= b < numBlocks
      ensures refcounts'[b] - |Holders(allocations[r := a], b)| == refcounts[b] - |Holders(allocations, b)|
    {
      HoldersUpdate(allocations, r, a, b);
    }
    assert Sound(numBlocks, blockSize, r, a);
    forall b | 0 <= b < numBlocks ensures b in free[k..] <==> refcounts'[b] == 0 {
      assert Lists(allocations, r, b) == 1 ==> b in a.blockIds;
    }
  }

  // ----- growing a batch

  /** Pages one request needs beyond those it owns to append `additional` tokens. */
  function ExtraBlocks(current: BlockAllocation, additional: nat, blockSize: nat): nat
    requires blockSize > 0
  {
    Max(0, BlocksRequired(current.numTokens + additional, blockSize) - |current.blockIds|)
  }

  /** The pages a whole batch needs. */
  function ExtraTotal(allocations: Allocations, ids: seq<int>, additional: nat, blockSize: nat): nat
    requires blockSize > 0
    requires forall id :: id in ids ==> id in allocations
  {
    if ids == [] then 0
    else
      var last := |ids| - 1;
      ExtraTotal(allocations, ids[..last], additional, blockSize)
      + (var id := ids[last]; ExtraBlocks(allocations[id], additional, blockSize))
  }

  lemma ExtraTotalStep(allocations: Allocations, ids: seq<int>, additional: nat, blockSize: nat, i: nat)
    requires blockSize > 0 && i < |ids|
    requires forall id :: id in ids ==> id in allocations
    ensures ids[i] in ids
    ensures ExtraTotal(allocations, ids[..i + 1], additional, blockSize)
            == ExtraTotal(allocations, ids[..i], additional, blockSize) + ExtraBlocks(allocations[ids[i]], additional, blockSize)
  {
    assert ids[..i + 1][..i] == ids[..i];
  }

  lemma ExtraTotalMonotone(allocations: Allocations, ids: seq<int>, additional: nat, blockSize: nat, i: nat)
    requires blockSize > 0 && i <= |ids|
    requires forall id :: id in ids ==> id in allocations
    ensures ExtraTotal(allocations, ids[..i], additional, blockSize) <= ExtraTotal(allocations, ids, additional, blockSize)
    decreases |ids| - i
  {
    if i < |ids| {
      ExtraTotalStep(allocations, ids, additional, blockSize, i);
      ExtraTotalMonotone(allocations, ids, additional, blockSize, i + 1);
    } else {
      assert ids[..i] == ids;
    }
  }

  /** One allocation after a decode step, `appended` being the pages it was handed. */
  function Grown(current: BlockAllocation, additional: nat, appended: seq<int>): BlockAllocation {
    var numTokens := current.numTokens + additional;
    current.(blockIds := current.blockIds + appended,
             numTokens := numTokens,
             reservedTokens := Max(current.reservedTokens, numTokens))
  }

  /** `a` is `current` grown by `additional` tokens onto just the pages it lacks. */
  predicate Grew(current: BlockAllocation, additional: nat, blockSize: nat, handed: seq<int>, a: BlockAllocation)
    requires blockSize > 0
  {
    && |handed| == ExtraBlocks(current, additional, blockSize)
    && a == Grown(current, additional, handed)
  }

  /** The `i`-th request of a batch grew onto its own stretch of the free list. */
  ghost predicate GrewAt(
    before: Allocations, free: seq<int>, ids: seq<int>, additional: nat, blockSize: nat, i: nat, a: BlockAllocation)
  {
    && blockSize > 0 && i < |ids|
    && (forall id :: id in ids ==> id in before)
    && var lo, hi := ExtraTotal(before, ids[..i], additional, blockSize), ExtraTotal(before, ids[..i + 1], additional, blockSize);
    && lo <= hi <= |free|
    && (assert ids[i] in ids; Grew(before[ids[i]], additional, blockSize, free[lo..hi], a))
  }

  /** The first `n` requests of a batch grew and nothing else changed. */
  ghost predicate GrewAll(
    before: Allocations, free: seq<int>, ids: seq<int>, additional: nat, blockSize: nat, n: nat,
    after: Allocations, results: seq<BlockAllocation>)
  {
    && after.Keys == before.Keys
    && |results| == n <= |ids|
    && (forall id :: id in after && id !in ids[..n] ==> after[id] == before[id])
    && (forall i :: 0 <= i < n ==>
          && ids[i] in after
          && results[i] == after[ids[i]]
          && GrewAt(before, free, ids, additional, blockSize, i, results[i]))
  }

  lemma GrewAllStep(
    before: Allocations, free: seq<int>, ids: seq<int>, additional: nat, blockSize: nat, n: nat,
    after: Allocations, results: seq<BlockAllocation>, a: BlockAllocation)
    requires n < |ids| && Distinct(ids)
    requires GrewAll(before, free, ids, additional, blockSize, n, after, results)
    requires ids[n] in before && GrewAt(before, free, ids, additional, blockSize, n, a)
    ensures GrewAll(before, free, ids, additional, blockSize, n + 1, after[ids[n] := a], results + [a])
  {
    hide GrewAt;
    assert ids[..n + 1] == ids[..n] + [ids[n]];
  }

  lemma NotYet(ids: seq<int>, i: nat)
    requires i < |ids| && Distinct(ids)
    ensures ids[i] in ids && ids[i] !in ids[..i]
    ensures ids[..i + 1] == ids[..i] + [ids[i]]
  {
  }

  lemma GrewFrom(
    before: Allocations, free: seq<int>, ids: seq<int>, additional: nat, blockSize: nat, i: nat, rest: seq<int>, a: BlockAllocation)
    requires blockSize > 0 && i < |ids| && ids[i] in before && forall id :: id in ids ==> id in before
    requires ExtraTotal(before, ids[..i], additional, blockSize) <= |free|
    requires rest == free[ExtraTotal(before, ids[..i], additional, blockSize)..]
    requires ExtraBlocks(before[ids[i]], additional, blockSize) <= |rest|
    requires a == Grown(before[ids[i]], additional, rest[..ExtraBlocks(before[ids[i]], additional, blockSize)])
    ensures GrewAt(before, free, ids, additional, blockSize, i, a)
    ensures ExtraTotal(before, ids[..i + 1], additional, blockSize) <= |free|
    ensures rest[ExtraBlocks(before[ids[i]], additional, blockSize)..] == free[ExtraTotal(before, ids[..i + 1], additional, blockSize)..]
  {
    hide ExtraBlocks, ExtraTotal, Grown;
    ExtraTotalStep(before, ids, additional, blockSize, i);
    var lo, extra := ExtraTotal(before, ids[..i], additional, blockSize), ExtraBlocks(before[ids[i]], additional, blockSize);
    assert rest[..extra] == free[lo..lo + extra];
  }

  lemma GrewNone(before: Allocations, free: seq<int>, ids: seq<int>, additional: nat, blockSize: nat)
    requires blockSize > 0
    ensures ExtraTotal(before, ids[..0], additional, blockSize) == 0
    ensures GrewAll(before, free, ids, additional, blockSize, 0, before, [])
  {
  }

  /** A decode step adds one token to each request of the batch. */
  lemma GrewByOne(before: Allocations, free: seq<int>, ids: seq<int>, blockSize: nat, after: Allocations, results: seq<BlockAllocation>)
    requires GrewAll(before, free, ids, 1, blockSize, |ids|, after, results)
    ensures after.Keys == before.Keys
    ensures forall id :: id in ids ==>
              id in after && after[id].numTokens == before[id].numTokens + 1 && after[id].reservedTokens >= before[id].reservedTokens
    ensures forall id :: id in after && id !in ids ==> after[id] == before[id]
  {
    assert ids[..|ids|] == ids;
    forall id | id in ids ensures id in after && after[id].numTokens == before[id].numTokens + 1 && after[id].reservedTokens >= before[id].reservedTokens {
      var i :| 0 <= i < |ids| && ids[i] == id;
      assert GrewAt(before, free, ids, 1, blockSize, i, results[i]);
    }
  }

  /** `a` is `current` grown onto pages behind its own, as many as it lacked. */
  ghost predicate GrewOnto(current: BlockAllocation, additional: nat, blockSize: nat, a: BlockAllocation) {
    && blockSize > 0 && current.blockIds <= a.blockIds
    && Grew(current, additional, blockSize, a.blockIds[|current.blockIds|..], a)
  }

  /** Each request of a batch grew, and nobody else did. */
  lemma GrewEach(
    before: Allocations, free: seq<int>, ids: seq<int>, additional: nat, blockSize: nat, after: Allocations, results: seq<BlockAllocation>)
    requires GrewAll(before, free, ids, additional, blockSize, |ids|, after, results)
    ensures after.Keys == before.Keys
    ensures forall id :: id in ids ==> id in after && GrewOnto(before[id], additional, blockSize, after[id])
    ensures forall id :: id in after && id !in ids ==> after[id] == before[id]
  {
    assert ids[..|ids|] == ids;
    forall id | id in ids ensures id in after && GrewOnto(before[id], additional, blockSize, after[id]) {
      var i :| 0 <= i < |ids| && ids[i] == id;
      assert GrewAt(before, free, ids, additional, blockSize, i, results[i]);
      var lo, hi := ExtraTotal(before, ids[..i], additional, blockSize), ExtraTotal(before, ids[..i + 1], additional, blockSize);
      assert after[id].blockIds == before[id].blockIds + free[lo..hi];
      assert after[id].blockIds[|before[id].blockIds|..] == free[lo..hi];
    }
  }

  /** A batch that stays inside its reservations needs no new page. */
  lemma NoMidStreamExhaustion(
    numBlocks: nat, blockSize: nat, headroom: nat, free: seq<int>, refcounts: seq<nat>, allocations: Allocations,
    ids: seq<int>, additional: nat)
    requires Consistent(numBlocks, blockSize, headroom, free, refcounts, allocations)
    requires forall id :: id in ids ==> id in allocations && allocations[id].numTokens + additional <= allocations[id].reservedTokens
    ensures ExtraTotal(allocations, ids, additional, blockSize) == 0
  {
    if ids != [] {
      var last := ids[|ids| - 1];
      assert last in ids;
      assert Sound(numBlocks, blockSize, last, allocations[last]);
      BlocksRequiredMonotone(allocations[last].numTokens + additional, allocations[last].reservedTokens, blockSize);
      NoMidStreamExhaustion(numBlocks, blockSize, headroom, free, refcounts, allocations, ids[..|ids| - 1], additional);
    }
  }

  // ----- sorting the free list

  function Sorted(s: seq<int>): (t: seq<int>)
    requires Distinct(s)
    ensures |t| == |s| && Ascending(t)
    ensures forall b :: b in t <==> b in s
  {
    if s == [] then []
    else
      var last := |s| - 1;
      assert s == s[..last] + [s[last]];
      InsertSorted(Sorted(s[..last]), s[last])
  }

  function InsertSorted(s: seq<int>, x: int): (t: seq<int>)
    requires Ascending(s) && x !in s
    ensures |t| == |s| + 1 && Ascending(t)
    ensures forall b :: b in t <==> b in s || b == x
  {
    if s == [] then [x]
    else
      HeadIsLeast(s);
      if x < s[0] then
        PrependAscending(x, s);
        [x] + s
      else
        var rest := InsertSorted(s[1..], x);
        assert s == [s[0]] + s[1..];
        PrependAscending(s[0], rest);
        [s[0]] + rest
  }

  lemma HeadIsLeast(s: seq<int>)
    requires Ascending(s) && s != []
    ensures Ascending(s[1..]) && forall b :: b in s ==> b == s[0] || s[0] < b
    ensures s[0] !in s[1..] && forall b :: b in s[1..] ==> b in s
  {
  }

  lemma PrependAscending(x: int, s: seq<int>)
    requires Ascending(s) && forall b :: b in s ==> x < b
    ensures Ascending([x] + s)
  {
    forall i, j | 0 <= i < j < |[x] + s| ensures ([x] + s)[i] < ([x] + s)[j] {
      var b := s[j - 1];
      assert b in s;
    }
  }

  class KVBlockManager {
    const numBlocks: nat
    const blockSize: nat
    const headroomBlocks: nat
    var free: seq<int>
    var refcounts: seq<nat>
    var allocations: Allocations

    ghost predicate Valid()
      reads this
    {
      Consistent(numBlocks, blockSize, headroomBlocks, free, refcounts, allocations)
    }

    /** References to a page that no allocation accounts for. */
    ghost function External(b: int): nat
      requires Valid() && 0 <= b < numBlocks
      reads this
    {
      refcounts[b] - |Holders(allocations, b)|
    }

    /** Each of these pages has a reference outside the allocations. */
    ghost predicate HeldOutside(ids: seq<int>)
      reads this
    {
      forall b :: b in ids && 0 <= b < |refcounts| ==> refcounts[b] > |Holders(allocations, b)|
    }

    function Allocatable(): nat
      reads this
    {
      Max(0, |free| - headroomBlocks)
    }

    constructor (numBlocks: nat, blockSize: nat, headroomBlocks: nat)
      requires blockSize > 0 && headroomBlocks < numBlocks
      ensures Valid()
      ensures this.numBlocks == numBlocks && this.blockSize == blockSize && this.headroomBlocks == headroomBlocks
      ensures allocations == map[] && |free| == numBlocks
      ensures forall b :: 0 <= b < numBlocks ==> refcounts[b] == 0
    {
      this.numBlocks := numBlocks;
      this.blockSize := blockSize;
      this.headroomBlocks := headroomBlocks;
      free := seq(numBlocks, i => i);
      refcounts := seq(numBlocks, _ => 0);
      allocations := map[];
      new;
      forall b | 0 <= b < numBlocks ensures b in free && Holders(allocations, b) == {} {
        assert free[b] == b;
      }
    }

    /** What `Allocate` checks about its arguments, capacity aside. */
    ghost predicate CanName(requestId: int, numTokens: int, reservation: int, prefix: seq<int>)
      requires Valid()
      reads this
    {
      && numTokens <= reservation
      && Distinct(prefix)
      && |prefix| <= numTokens / blockSize
      && requestId !in allocations
      && (forall b :: b in prefix ==> 0 <= b < numBlocks && refcounts[b] > 0)
    }

    /** Pages `Allocate` takes from the free list. */
    function NewRequired(reservation: nat, prefix: seq<int>): int
      requires blockSize > 0
    {
      BlocksRequired(reservation, blockSize) - |prefix|
    }

    method Allocate(requestId: int, numTokens: int, reserveTokens: Option<int>, prefix: seq<int>)
      returns (r: Result<BlockAllocation>)
      requires Valid()
      modifies this
      ensures Valid()
      ensures SameExternal(numBlocks, old(refcounts), old(allocations), refcounts, allocations)
      ensures r.Err? ==> unchanged(this) && r.error in {ValueError, MemoryError}
      ensures var reservation := if reserveTokens.None? then numTokens else reserveTokens.value;
              && (r == Err(ValueError) <==> !old(CanName(requestId, numTokens, reservation, prefix)))
              && (r == Err(MemoryError) <==>
                    && old(CanName(requestId, numTokens, reservation, prefix))
                    && NewRequired(reservation, prefix) > old(Allocatable()))
              && (r.Ok? ==>
                    && 0 <= NewRequired(reservation, prefix) <= old(|free|)
                    && var taken := old(free)[..NewRequired(reservation, prefix)];
                    && r.value == BlockAllocation(requestId, prefix + taken, numTokens, reservation, |prefix|)
                    && free == old(free)[NewRequired(reservation, prefix)..])
      ensures r.Ok? ==>
                && allocations == old(allocations)[requestId := r.value]
                && forall b :: 0 <= b < numBlocks ==>
                     refcounts[b] == old(refcounts)[b] + (if b in r.value.blockIds then 1 else 0)
    {
      var reservation := if reserveTokens.None? then numTokens else reserveTokens.value;
      if reservation < numTokens || !Distinct(prefix) || |prefix| > numTokens / blockSize {
        return Err(ValueError);
      }
      if requestId in allocations {
        return Err(ValueError);
      }
      if exists b :: b in prefix && !(0 <= b < numBlocks) {
        return Err(ValueError);
      }
      if exists b :: b in prefix && refcounts[b] == 0 {
        return Err(ValueError);
      }
      // A complete logical prefix never exceeds the reservation, so the
      // third error here, a prefix with more blocks than that, cannot be reached.
      var newRequired := NewRequired(reservation, prefix);
      PrefixFits(reservation, numTokens, |prefix|);
      if newRequired > Allocatable() {
        return Err(MemoryError);
      }
      var newBlocks := free[..newRequired];
      ghost var freeBefore, before := free, refcounts;
      FreeSplit(free, newRequired);
      free := free[newRequired..];
      AddReferences(prefix);
      SetReferences(newBlocks);
      var a := BlockAllocation(requestId, prefix + newBlocks, numTokens, reservation, |prefix|);
      Grant(numBlocks, blockSize, headroomBlocks, freeBefore, before, allocations, requestId, prefix, newRequired, a, refcounts);
      allocations := allocations[requestId := a];
      r := Ok(a);
    }

    lemma PrefixFits(reservation: nat, numTokens: nat, prefix: nat)
      requires blockSize > 0 && numTokens <= reservation && prefix <= numTokens / blockSize
      ensures prefix <= BlocksRequired(reservation, blockSize)
    {
      var required := BlocksRequired(reservation, blockSize);
      assert prefix * blockSize <= numTokens;
      if required < prefix {
        MulMonotone(required + 1, prefix, blockSize);
        assert false;
      }
    }

    /** One more reference on each of some distinct pages. */
    method AddReferences(ids: seq<int>)
      requires Distinct(ids) && |refcounts| == numBlocks
      requires forall b :: b in ids ==> 0 <= b < numBlocks
      modifies this`refcounts
      ensures |refcounts| == numBlocks
      ensures forall b :: 0 <= b < numBlocks ==>
                refcounts[b] == old(refcounts)[b] + (if b in ids then 1 else 0)
    {
      for i := 0 to |ids|
        invariant |refcounts| == numBlocks
        invariant forall b :: 0 <= b < numBlocks ==>
                    refcounts[b] == old(refcounts)[b] + (if b in ids[..i] then 1 else 0)
      {
        assert ids[i] in ids && ids[i] !in ids[..i];
        assert ids[..i + 1] == ids[..i] + [ids[i]];
        refcounts := refcounts[ids[i] := refcounts[ids[i]] + 1];
      }
      assert ids[..|ids|] == ids;
    }

    /** The first reference on each of some pages. */
    method SetReferences(ids: seq<int>)
      requires |refcounts| == numBlocks
      requires forall b :: b in ids ==> 0 <= b < numBlocks
      modifies this`refcounts
      ensures |refcounts| == numBlocks
      ensures forall b :: 0 <= b < numBlocks ==>
                refcounts[b] == if b in ids then 1 else old(refcounts)[b]
    {
      for i := 0 to |ids|
        invariant |refcounts| == numBlocks
        invariant forall b :: 0 <= b < numBlocks ==>
                    refcounts[b] == if b in ids[..i] then 1 else old(refcounts)[b]
      {
        assert ids[i] in ids;
        assert ids[..i + 1] == ids[..i] + [ids[i]];
        refcounts := refcounts[ids[i] := 1];
      }
      assert ids[..|ids|] == ids;
    }

    method Get(requestId: int) returns (r: Result<BlockAllocation>)
      ensures r == if requestId in allocations then Ok(allocations[requestId]) else Err(KeyError)
    {
      r := if requestId in allocations then Ok(allocations[requestId]) else Err(KeyError);
    }

    method Reserve(requestId: int, totalTokens: int) returns (r: Result<BlockAllocation>)
      requires Valid()
      modifies this
      ensures Valid()
      ensures SameExternal(numBlocks, old(refcounts), old(allocations), refcounts, allocations)
      ensures r.Err? ==> unchanged(this)
      ensures totalTokens < 0 ==> r == Err(ValueError)
      ensures totalTokens >= 0 && requestId !in old(allocations) ==> r == Err(KeyError)
      ensures totalTokens >= 0 && requestId in old(allocations) ==>
                var current := old(allocations)[requestId];
                var extra := Max(0, BlocksRequired(totalTokens, blockSize) - |current.blockIds|);
                && (r == Err(ValueError) <==> totalTokens < current.numTokens)
                && (r == Err(MemoryError) <==> totalTokens >= current.numTokens && extra > old(Allocatable()))
                && (r.Err? ==> r.error in {ValueError, MemoryError})
                && (r.Ok? ==>
                      && extra <= old(|free|)
                      && r.value == current.(blockIds := current.blockIds + old(free)[..extra],
                                             reservedTokens := Max(current.reservedTokens, totalTokens))
                      && allocations == old(allocations)[requestId := r.value]
                      && free == old(free)[extra..])
    {
      if totalTokens < 0 {
        return Err(ValueError);
      }
      if requestId !in allocations {
        return Err(KeyError);
      }
      var current := allocations[requestId];
      if totalTokens < current.numTokens {
        return Err(ValueError);
      }
      var targetBlocks := BlocksRequired(totalTokens, blockSize);
      var extra := Max(0, targetBlocks - |current.blockIds|);
      if extra > Allocatable() {
        return Err(MemoryError);
      }
      var newBlocks := free[..extra];
      ghost var freeBefore, before := free, refcounts;
      FreeSplit(free, extra);
      ListedIsReferenced(numBlocks, blockSize, headroomBlocks, free, refcounts, allocations);
      assert Sound(numBlocks, blockSize, requestId, current);
      free := free[extra..];
      SetReferences(newBlocks);
      var a := current.(blockIds := current.blockIds + newBlocks,
                        reservedTokens := Max(current.reservedTokens, totalTokens));
      Grant(numBlocks, blockSize, headroomBlocks, freeBefore, before, allocations, requestId, current.blockIds, extra, a, refcounts);
      allocations := allocations[requestId := a];
      r := Ok(a);
    }

    method GrowMany(ids: seq<int>, additionalTokens: int) returns (r: Result<seq<BlockAllocation>>)
      requires Valid()
      modifies this
      ensures Valid()
      ensures SameExternal(numBlocks, old(refcounts), old(allocations), refcounts, allocations)
      ensures r.Err? ==> unchanged(this) && r.error in {ValueError, KeyError, MemoryError}
      ensures r == Err(ValueError) <==> additionalTokens < 0 || !Distinct(ids)
      ensures r == Err(KeyError) <==> additionalTokens >= 0 && Distinct(ids) && exists id :: id in ids && id !in old(allocations)
      ensures additionalTokens >= 0 && Distinct(ids) && (forall id :: id in ids ==> id in old(allocations)) ==>
                var total := ExtraTotal(old(allocations), ids, additionalTokens, blockSize);
                && (r == Err(MemoryError) <==> total > old(Allocatable()))
                && (r.Ok? ==>
                      && total <= old(|free|)
                      && free == old(free)[total..])
      ensures r.Ok? ==> GrewAll(old(allocations), old(free), ids, additionalTokens, blockSize, |ids|, allocations, r.value)
    {
      if additionalTokens < 0 {
        return Err(ValueError);
      }
      if !Distinct(ids) {
        return Err(ValueError);
      }
      var totalExtra := 0;
      for i := 0 to |ids|
        invariant forall id :: id in ids[..i] ==> id in allocations
        invariant totalExtra == ExtraTotal(allocations, ids[..i], additionalTokens, blockSize)
      {
        var id := ids[i];
        if id !in allocations {
          assert id in ids;
          return Err(KeyError);
        }
        assert ids[..i + 1] == ids[..i] + [id];
        assert ids[..i + 1][..i] == ids[..i];
        totalExtra := totalExtra + ExtraBlocks(allocations[id], additionalTokens, blockSize);
      }
      assert ids[..|ids|] == ids;
      if totalExtra > Allocatable() {
        return Err(MemoryError);
      }
      r := GrowPlanned(ids, additionalTokens);
    }

    /**
     The commit half of `GrowMany`: every check has passed, so it cannot fail. Each
     request's new pages get their first reference as they are handed out, not in a
     second pass over the batch.
     */
    method GrowPlanned(ids: seq<int>, additional: nat) returns (r: Result<seq<BlockAllocation>>)
      requires Valid() && Distinct(ids)
      requires forall id :: id in ids ==> id in allocations
      requires ExtraTotal(allocations, ids, additional, blockSize) <= Allocatable()
      modifies this
      ensures Valid()
      ensures SameExternal(numBlocks, old(refcounts), old(allocations), refcounts, allocations)
      ensures r.Ok? && |r.value| == |ids|
      ensures ExtraTotal(old(allocations), ids, additional, blockSize) <= |old(free)|
      ensures free == old(free)[ExtraTotal(old(allocations), ids, additional, blockSize)..]
      ensures GrewAll(old(allocations), old(free), ids, additional, blockSize, |ids|, allocations, r.value)
    {
      hide ExtraTotal, ExtraBlocks, GrewAll, GrewAt, Grown, Holders, Sound;
      ghost var before, freeBefore := allocations, free;
      var results: seq<BlockAllocation> := [];
      ghost var cursor := 0;
      GrewNone(before, freeBefore, ids, additional, blockSize);
      assert freeBefore[0..] == freeBefore;
      for i := 0 to |ids|
        invariant Valid()
        invariant SameExternal(numBlocks, old(refcounts), old(allocations), refcounts, allocations)
        invariant cursor == ExtraTotal(before, ids[..i], additional, blockSize)
        invariant |results| == i && cursor <= |freeBefore| && free == freeBefore[cursor..]
        invariant GrewAll(before, freeBefore, ids, additional, blockSize, i, allocations, results)
        invariant forall id :: id in before && id !in ids[..i] ==> id in allocations && allocations[id] == before[id]
      {
        var id := ids[i];
        ExtraTotalStep(before, ids, additional, blockSize, i);
        ExtraTotalMonotone(before, ids, additional, blockSize, i + 1);
        NotYet(ids, i);
        ghost var current, rest := allocations, free;
        var a := GrowOne(id, additional);
        GrewFrom(before, freeBefore, ids, additional, blockSize, i, rest, a);
        GrewAllStep(before, freeBefore, ids, additional, blockSize, i, current, results, a);
        results := results + [a];
        cursor := cursor + ExtraBlocks(before[id], additional, blockSize);
      }
      assert ids[..|ids|] == ids;
      r := Ok(results);
    }

    method GrowOne(id: int, additional: nat) returns (a: BlockAllocation)
      requires Valid() && id in allocations
      requires ExtraBlocks(allocations[id], additional, blockSize) <= Allocatable()
      modifies this
      ensures Valid()
      ensures SameExternal(numBlocks, old(refcounts), old(allocations), refcounts, allocations)
      ensures var extra := ExtraBlocks(old(allocations)[id], additional, blockSize);
              && extra <= |old(free)|
              && a == Grown(old(allocations)[id], additional, old(free)[..extra])
              && free == old(free)[extra..]
      ensures |old(free)[..ExtraBlocks(old(allocations)[id], additional, blockSize)]| == ExtraBlocks(old(allocations)[id], additional, blockSize)
      ensures allocations == old(allocations)[id := a]
    {
      var current := allocations[id];
      var extra := ExtraBlocks(current, additional, blockSize);
      var appended := free[..extra];
      a := Grown(current, additional, appended);
      ghost var freeBefore, before := free, refcounts;
      FreeSplit(free, extra);
      ListedIsReferenced(numBlocks, blockSize, headroomBlocks, free, refcounts, allocations);
      assert Sound(numBlocks, blockSize, id, current);
      free := free[extra..];
      SetReferences(appended);
      Grant(numBlocks, blockSize, headroomBlocks, freeBefore, before, allocations, id, current.blockIds, extra, a, refcounts);
      allocations := allocations[id := a];
    }

    /** Rolls the logical length back; the pages stay reserved. */
    method Truncate(requestId: int, numTokens: int) returns (r: Result<BlockAllocation>)
      requires Valid()
      modifies this`allocations
      ensures Valid()
      ensures SameExternal(numBlocks, old(refcounts), old(allocations), refcounts, allocations)
      ensures r.Err? ==> allocations == old(allocations)
      ensures requestId !in old(allocations) ==> r == Err(KeyError)
      ensures requestId in old(allocations) ==>
                var current := old(allocations)[requestId];
                && (r == Err(ValueError) <==> !(0 <= numTokens <= current.numTokens))
                && (r.Err? ==> r.error == ValueError)
                && (r.Ok? ==>
                      && r.value == current.(numTokens := numTokens)
                      && allocations == old(allocations)[requestId := r.value])
    {
      if requestId !in allocations {
        return Err(KeyError);
      }
      var current := allocations[requestId];
      if !(0 <= numTokens <= current.numTokens) {
        return Err(ValueError);
      }
      var a := current.(numTokens := numTokens);
      ListedIsReferenced(numBlocks, blockSize, headroomBlocks, free, refcounts, allocations);
      assert Sound(numBlocks, blockSize, requestId, current);
      assert free[0..] == free && a.blockIds == current.blockIds + free[..0];
      Grant(numBlocks, blockSize, headroomBlocks, free, refcounts, allocations, requestId, current.blockIds, 0, a, refcounts);
      allocations := allocations[requestId := a];
      r := Ok(a);
    }

    method Free(requestId: int)
      requires Valid()
      modifies this
      ensures Valid()
      ensures SameExternal(numBlocks, old(refcounts), old(allocations), refcounts, allocations)
      ensures allocations == old(allocations) - {requestId}
      ensures forall b :: 0 <= b < numBlocks ==>
                refcounts[b] == old(refcounts)[b] - Lists(old(allocations), requestId, b)
      ensures |free| >= |old(free)|
    {
      if requestId !in allocations {
        assert allocations == allocations - {requestId};
        return;
      }
      var a := allocations[requestId];
      forall b | 0 <= b < numBlocks
        ensures |Holders(allocations - {requestId}, b)| == |Holders(allocations, b)| - Lists(allocations, requestId, b)
      {
        HoldersRemove(allocations, requestId, b);
      }
      ListedIsReferenced(numBlocks, blockSize, headroomBlocks, free, refcounts, allocations);
      assert Sound(numBlocks, blockSize, requestId, a);
      allocations := allocations - {requestId};
      var r := ReleaseBlocksLocked(a.blockIds);
    }

    method RetainBlocks(ids: seq<int>) returns (r: Result<()>)
      requires Valid()
      modifies this`refcounts
      ensures Valid()
      ensures r == Err(ValueError) <==>
              !Distinct(ids) || exists b :: b in ids && (!(0 <= b < numBlocks) || old(refcounts)[b] == 0)
      ensures r.Err? ==> r.error == ValueError && refcounts == old(refcounts)
      ensures r.Ok? ==> forall b :: 0 <= b < numBlocks ==>
                          && refcounts[b] == old(refcounts)[b] + (if b in ids then 1 else 0)
                          && External(b) == old(External(b)) + (if b in ids then 1 else 0)
    {
      if !Distinct(ids) {
        return Err(ValueError);
      }
      for i := 0 to |ids|
        invariant refcounts == old(refcounts)
        invariant forall b :: b in ids[..i] ==> 0 <= b < numBlocks && refcounts[b] > 0
      {
        if !(0 <= ids[i] < numBlocks) || refcounts[ids[i]] == 0 {
          assert ids[i] in ids;
          return Err(ValueError);
        }
        assert ids[..i + 1] == ids[..i] + [ids[i]];
      }
      assert ids[..|ids|] == ids;
      AddReferences(ids);
      r := Ok(());
    }

    /**
     Drops one reference on each page. Its callers own one outside every allocation; if and
     only if they do, the books hold afterwards.
     */
    method ReleaseBlocks(ids: seq<int>) returns (r: Result<()>)
      requires Valid()
      modifies this`free, this`refcounts
      ensures FreeList(numBlocks, free, refcounts)
      ensures Valid() <==> r.Err? || old(HeldOutside(ids))
      ensures r.Ok? <==> Distinct(ids) && forall b :: b in ids ==> 0 <= b < numBlocks && old(refcounts)[b] > 0
      ensures r.Err? ==> r.error in {ValueError, RuntimeError} && unchanged(this)
      ensures r.Ok? ==> forall b :: 0 <= b < numBlocks ==> refcounts[b] == old(refcounts)[b] - (if b in ids then 1 else 0)
      ensures r.Ok? && old(HeldOutside(ids)) ==> forall b :: 0 <= b < numBlocks ==> External(b) == old(External(b)) - (if b in ids then 1 else 0)
      ensures r.Ok? ==> |free| == |old(free)| + Freed(ids, old(refcounts))
    {
      r := ReleaseBlocksLocked(ids);
    }

    /** All checks come before the first decrement, so an error changes nothing. */
    method ReleaseBlocksLocked(ids: seq<int>) returns (r: Result<()>)
      requires FreeList(numBlocks, free, refcounts)
      modifies this`refcounts, this`free
      ensures FreeList(numBlocks, free, refcounts) && |free| >= |old(free)|
      ensures r.Ok? <==> Distinct(ids) && forall b :: b in ids ==> 0 <= b < numBlocks && old(refcounts)[b] > 0
      ensures !Distinct(ids) ==> r == Err(ValueError)
      ensures r.Err? ==> r.error in {ValueError, RuntimeError} && refcounts == old(refcounts) && free == old(free)
      ensures r.Ok? ==> forall b :: 0 <= b < numBlocks ==>
                          refcounts[b] == old(refcounts)[b] - (if b in ids then 1 else 0)
      ensures r.Ok? ==> |free| == |old(free)| + Freed(ids, old(refcounts))
    {
      if !Distinct(ids) {
        return Err(ValueError);
      }
      for i := 0 to |ids|
        invariant refcounts == old(refcounts) && free == old(free)
        invariant forall j :: 0 <= j < i ==> 0 <= ids[j] < numBlocks && refcounts[ids[j]] > 0
      {
        if !(0 <= ids[i] < numBlocks) {
          assert ids[i] in ids;
          return Err(ValueError);
        }
        if refcounts[ids[i]] == 0 {
          assert ids[i] in ids;
          return Err(RuntimeError);
        }
      }
      var released := Decrement(ids);
      free := Sorted(released);
      r := Ok(());
    }

    /** Takes a reference off each page; the free pages and those that become free come back. */
    method Decrement(ids: seq<int>) returns (released: seq<int>)
      requires FreeList(numBlocks, free, refcounts) && Distinct(ids)
      requires forall i :: 0 <= i < |ids| ==> 0 <= ids[i] < numBlocks && refcounts[ids[i]] > 0
      modifies this`refcounts
      ensures |refcounts| == numBlocks && Distinct(released)
      ensures forall b :: b in released ==> 0 <= b < numBlocks
      ensures forall b :: 0 <= b < numBlocks ==> (b in released <==> refcounts[b] == 0)
      ensures forall b :: 0 <= b < numBlocks ==> refcounts[b] == old(refcounts)[b] - (if b in ids then 1 else 0)
      ensures |released| == |free| + Freed(ids, old(refcounts))
    {
      hide Freed;
      released := free;
      ghost var before := refcounts;
      FreedNone(ids, before);
      for i := 0 to |ids|
        invariant |refcounts| == numBlocks
        invariant Distinct(released) && |released| == |free| + Freed(ids[..i], old(refcounts))
        invariant forall b :: b in released ==> 0 <= b < numBlocks
        invariant forall b :: 0 <= b < numBlocks ==> (b in released <==> refcounts[b] == 0)
        invariant forall b :: 0 <= b < numBlocks ==>
                    refcounts[b] == old(refcounts)[b] - (if b in ids[..i] then 1 else 0)
      {
        var b := ids[i];
        assert b !in ids[..i];
        assert ids[..i + 1] == ids[..i] + [b];
        FreedNext(ids, i, before);
        refcounts := refcounts[b := refcounts[b] - 1];
        if refcounts[b] == 0 {
          released := released + [b];
        }
      }
      assert ids[..|ids|] == ids;
    }

    /** The allocator's self-check, which passes in every reachable state. */
    method Audit() returns (ok: bool)
      requires Valid()
      ensures ok
    {
      ok := Distinct(free) && (forall b :: b in free ==> 0 <= b < numBlocks);
      for b := 0 to numBlocks
        invariant ok
      {
        ok := ok && (b in free) == (refcounts[b] == 0);
      }
      ListedIsReferenced(numBlocks, blockSize, headroomBlocks, free, refcounts, allocations);
      ok := ok && forall r :: r in allocations ==>
                    var a := allocations[r];
                    && r == a.requestId
                    && Distinct(a.blockIds)
                    && (forall b :: b in a.blockIds ==> refcounts[b] > 0)
                    && 0 <= a.numTokens <= a.reservedTokens
                    && BlocksRequired(a.reservedTokens, blockSize) <= |a.blockIds|;
    }
  }
}
