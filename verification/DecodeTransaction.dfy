/**
 One decode step of a batch: all requests advance by one token, or the batch is bisected
 until the requests that fail stand alone.
 */
module DecodeTransaction {
  import opened Basics
  import opened BlockManager
  import opened GenerationStream
  import opened GenerationBackend
  import opened DecodeTrace

  /** What a decode step records before its first attempt. */
  datatype Batch = Batch(rows: map<int, Row>, bases: Allocations, checkpoints: map<int, RuntimeState>)

  /** A step either advances the whole batch, or says whom it advanced and whom it did not. */
  datatype Outcome = Decoded(tokens: seq<Token>) | PartialDecode(successes: map<int, Token>, failures: map<int, Error>)

  type RuntimeStates = map<int, RuntimeState>

  function TokenOf(row: Row): Token
    requires row.generated != []
  {
    row.generated[|row.generated| - 1]
  }

  function SampleOf(sampler: Sampler, row: Row, s: RuntimeState): Token {
    sampler(row.spec.id, s.folded, row.spec.prompt + row.generated, |row.generated|)
  }

  /** Where a request of the batch stands after the attempts so far. */
  ghost predicate Stands(batch: Batch, id: int, trace: seq<Attempt>, succeeded: bool, allocations: Allocations, states: RuntimeStates) {
    && id in batch.rows && id in batch.bases && id in batch.checkpoints && batch.rows[id].generated != []
    && id in allocations && id in states
    && Standing(batch.bases[id], batch.checkpoints[id], TokenOf(batch.rows[id]), Marks(trace, id), succeeded, allocations[id], states[id])
  }

  ghost predicate Group(batch: Batch, ids: seq<int>, trace: seq<Attempt>, succeeded: bool, allocations: Allocations, states: RuntimeStates) {
    forall id :: id in ids ==> Stands(batch, id, trace, succeeded, allocations, states)
  }

  /** The pages of a group grew by a token each. */
  ghost predicate GrewGroup(before: Allocations, now: Allocations, ids: seq<int>, blockSize: nat) {
    forall id :: id in ids ==>
      && id in before && id in now && GrewOnto(before[id], 1, blockSize, now[id])
      && BlocksRequired(before[id].reservedTokens, blockSize) <= |before[id].blockIds|
  }

  /** What a call does to a group, its rollback included. */
  ghost predicate Left(
    batch: Batch, ids: seq<int>, fault: Fault, grown: Allocations, now: Allocations, states: RuntimeStates, states': RuntimeStates)
  {
    forall id :: id in ids ==>
      && id in grown && id in now && id in states && id in states' && id in batch.rows && id in batch.bases && id in batch.checkpoints
      && batch.rows[id].generated != []
      && var token, base, checkpoint := TokenOf(batch.rows[id]), batch.bases[id], batch.checkpoints[id];
      match fault
      case NoFault => now[id] == grown[id] && states'[id] == Committed(states[id], token)
      case Unbuilt => now[id] == grown[id] && states'[id] == states[id]
      case BeforeCommit => now[id] == grown[id].(numTokens := base.numTokens) && states'[id] == Restored(states[id], checkpoint)
      case AfterCommit =>
        now[id] == grown[id].(numTokens := base.numTokens) && states'[id] == Restored(Committed(states[id], token), checkpoint)
  }

  lemma GroupReached(
    batch: Batch, ids: seq<int>, trace: seq<Attempt>, fault: Fault, before: Allocations, grown: Allocations, now: Allocations,
    states: RuntimeStates, states': RuntimeStates, blockSize: nat)
    requires Group(batch, ids, trace, false, before, states) && GrewGroup(before, grown, ids, blockSize)
    requires Left(batch, ids, fault, grown, now, states, states')
    ensures Group(batch, ids, trace + [Reached(ids, fault)], fault.NoFault?, now, states')
  {
    hide Standing, GrewOnto, Committed, Restored, Marks, Marked, BlocksRequired;
    forall id | id in ids ensures Stands(batch, id, trace + [Reached(ids, fault)], fault.NoFault?, now, states') {
      assert Stands(batch, id, trace, false, before, states);
      MarksNext(trace, Reached(ids, fault), id);
      StandingNext(batch.bases[id], batch.checkpoints[id], TokenOf(batch.rows[id]), Marks(trace, id), before[id], grown[id], states[id],
                   blockSize, ids, fault, id);
    }
  }

  lemma GroupRefused(batch: Batch, ids: seq<int>, trace: seq<Attempt>, allocations: Allocations, states: RuntimeStates)
    requires Group(batch, ids, trace, false, allocations, states)
    ensures Group(batch, ids, trace + [NoRoom(ids)], false, allocations, states)
  {
    hide Marks;
    forall id | id in ids ensures Stands(batch, id, trace + [NoRoom(ids)], false, allocations, states) {
      assert Stands(batch, id, trace, false, allocations, states);
      MarksNext(trace, NoRoom(ids), id);
    }
  }

  /** Attempts on others leave a request where it stands. */
  lemma StandsElsewhere(
    batch: Batch, id: int, trace: seq<Attempt>, more: seq<Attempt>, ids: seq<int>, succeeded: bool,
    allocations: Allocations, allocations': Allocations, states: RuntimeStates, states': RuntimeStates)
    requires Stands(batch, id, trace, succeeded, allocations, states) && Names(more, ids) && id !in ids
    requires OnlyGroup(ids, allocations, allocations', states, states')
    ensures Stands(batch, id, trace + more, succeeded, allocations', states')
  {
    hide Standing, Marks, Names;
    MarksElsewhere(trace, more, ids, id);
  }

  /** Nothing outside a group changed, and nobody came or went. */
  ghost predicate OnlyGroup(ids: seq<int>, before: Allocations, now: Allocations, was: RuntimeStates, states: RuntimeStates) {
    && now.Keys == before.Keys && states.Keys == was.Keys
    && (forall id :: id in now && id !in ids ==> now[id] == before[id])
    && (forall id :: id in states && id !in ids ==> states[id] == was[id])
  }

  /** All of a group have reserved room for one token more, and were in no attempt that was not built. */
  ghost predicate AllRoomy(batch: Batch, ids: seq<int>, trace: seq<Attempt>) {
    forall id :: id in ids ==> id in batch.bases && Roomy(batch.bases[id]) && Marks(trace, id).unbuilt == 0
  }

  lemma RoomyBefore(batch: Batch, ids: seq<int>, some: seq<int>, trace: seq<Attempt>, more: seq<Attempt>)
    requires AllRoomy(batch, ids, trace + more) && forall id :: id in some ==> id in ids
    ensures AllRoomy(batch, some, trace)
  {
    forall id | id in some ensures id in batch.bases && Roomy(batch.bases[id]) && Marks(trace, id).unbuilt == 0 {
      MarksGrow(trace, more, id);
    }
  }

  /** A group with room needs no page. */
  lemma RoomyIsFree(
    batch: Batch, ids: seq<int>, trace: seq<Attempt>, numBlocks: nat, blockSize: nat, headroom: nat, free: seq<int>, refcounts: seq<nat>,
    allocations: Allocations, states: RuntimeStates)
    requires Consistent(numBlocks, blockSize, headroom, free, refcounts, allocations)
    requires Group(batch, ids, trace, false, allocations, states) && AllRoomy(batch, ids, trace)
    ensures forall id :: id in ids ==> id in allocations
    ensures ExtraTotal(allocations, ids, 1, blockSize) == 0
  {
    hide Consistent, After, Marks;
    forall id | id in ids ensures id in allocations && allocations[id].numTokens + 1 <= allocations[id].reservedTokens {
      assert Stands(batch, id, trace, false, allocations, states);
    }
    NoMidStreamExhaustion(numBlocks, blockSize, headroom, free, refcounts, allocations, ids, 1);
  }

  // ----- how requests fared

  /**
   How one request of a group fared in the attempts `more`: its last attempt decides. It
   succeeded in it, or it failed in it and was alone.
   */
  ghost predicate Fared(
    batch: Batch, id: int, trace: seq<Attempt>, more: seq<Attempt>, sampler: Sampler,
    successes: map<int, Token>, failures: map<int, Error>, allocations: Allocations, states: RuntimeStates)
  {
    && (id in successes <==> id !in failures)
    && Stands(batch, id, trace + more, id in successes, allocations, states)
    && var last := Marks(more, id).last;
    && last.Some? && (id in successes <==> Succeeded(last.value))
    && (id in successes ==> successes[id] == SampleOf(sampler, batch.rows[id], states[id]))
    && (id in failures ==> last.value.ids == [id] && failures[id] == ErrorOf(last.value))
  }

  ghost predicate Resolved(
    batch: Batch, ids: seq<int>, trace: seq<Attempt>, more: seq<Attempt>, sampler: Sampler,
    successes: map<int, Token>, failures: map<int, Error>, allocations: Allocations, states: RuntimeStates)
  {
    && successes.Keys + failures.Keys == (set id | id in ids)
    && Names(more, ids)
    && forall id :: id in ids ==> Fared(batch, id, trace, more, sampler, successes, failures, allocations, states)
  }

  lemma ResolvedAtOnce(
    batch: Batch, ids: seq<int>, trace: seq<Attempt>, a: Attempt, sampler: Sampler, tokens: seq<Token>,
    allocations: Allocations, states: RuntimeStates)
    requires Succeeded(a) && a.ids == ids && Distinct(ids) && |tokens| == |ids|
    requires Group(batch, ids, trace + [a], true, allocations, states)
    requires Samples(batch, ids, sampler, tokens, states)
    ensures Resolved(batch, ids, trace, [a], sampler, Zip(ids, tokens), map[], allocations, states)
  {
    hide Standing, SampleOf;
    var successes := Zip(ids, tokens);
    forall id | id in ids ensures Fared(batch, id, trace, [a], sampler, successes, map[], allocations, states) {
      assert Stands(batch, id, trace + [a], true, allocations, states);
      MarksNext([], a, id);
      assert [] + [a] == [a];
    }
  }

  lemma ResolvedAlone(
    batch: Batch, id: int, trace: seq<Attempt>, a: Attempt, sampler: Sampler, allocations: Allocations, states: RuntimeStates)
    requires !Succeeded(a) && a.ids == [id] && Group(batch, [id], trace + [a], false, allocations, states)
    ensures Resolved(batch, [id], trace, [a], sampler, map[], map[id := ErrorOf(a)], allocations, states)
  {
    hide Standing;
    assert id in [id];
    assert Stands(batch, id, trace + [a], false, allocations, states);
    MarksNext([], a, id);
    assert [] + [a] == [a];
  }

  lemma Apart(left: seq<int>, right: seq<int>, id: int)
    requires Distinct(left + right) && id in left + right
    ensures (id in left) != (id in right)
  {
    var ids := left + right;
    forall i, j | 0 <= i < |left| && 0 <= j < |right| ensures left[i] != right[j] {
      assert ids[i] == left[i] && ids[|left| + j] == right[j];
    }
  }

  /** A request of the right half: the earlier attempts are part of its past. */
  lemma FaredLater(
    batch: Batch, id: int, trace: seq<Attempt>, early: seq<Attempt>, more: seq<Attempt>, sampler: Sampler,
    s: map<int, Token>, f: map<int, Error>, s': map<int, Token>, f': map<int, Error>, allocations: Allocations, states: RuntimeStates)
    requires Fared(batch, id, trace + early, more, sampler, s, f, allocations, states)
    requires (id in s' <==> id in s) && (id in s ==> s'[id] == s[id]) && (id in f' <==> id in f) && (id in f ==> f'[id] == f[id])
    ensures Fared(batch, id, trace, early + more, sampler, s', f', allocations, states)
  {
    hide Standing, Marks;
    assert trace + (early + more) == trace + early + more;
    LastOfMore(early, more, id);
  }

  /** A request of the left half: what came after it was about others. */
  lemma FaredEarlier(
    batch: Batch, id: int, trace: seq<Attempt>, more: seq<Attempt>, late: seq<Attempt>, others: seq<int>, sampler: Sampler,
    s: map<int, Token>, f: map<int, Error>, s': map<int, Token>, f': map<int, Error>,
    allocations: Allocations, allocations': Allocations, states: RuntimeStates, states': RuntimeStates)
    requires Fared(batch, id, trace, more, sampler, s, f, allocations, states)
    requires Names(late, others) && id !in others && OnlyGroup(others, allocations, allocations', states, states')
    requires (id in s' <==> id in s) && (id in s ==> s'[id] == s[id]) && (id in f' <==> id in f) && (id in f ==> f'[id] == f[id])
    ensures Fared(batch, id, trace, more + late, sampler, s', f', allocations', states')
  {
    hide Standing, Marks, Names;
    assert trace + (more + late) == trace + more + late;
    StandsElsewhere(batch, id, trace + more, late, others, id in s, allocations, allocations', states, states');
    MarksElsewhere(more, late, others, id);
  }

  /** The two halves of a group, one after the other, after the attempt on the whole of it. */
  lemma ResolvedHalves(
    batch: Batch, left: seq<int>, right: seq<int>, trace: seq<Attempt>, a: Attempt, m1: seq<Attempt>, m2: seq<Attempt>, sampler: Sampler,
    s1: map<int, Token>, f1: map<int, Error>, s2: map<int, Token>, f2: map<int, Error>,
    allocations1: Allocations, states1: RuntimeStates, allocations2: Allocations, states2: RuntimeStates)
    requires a.ids == left + right && Distinct(left + right)
    requires Resolved(batch, left, trace + [a], m1, sampler, s1, f1, allocations1, states1)
    requires Resolved(batch, right, trace + [a] + m1, m2, sampler, s2, f2, allocations2, states2)
    requires OnlyGroup(right, allocations1, allocations2, states1, states2)
    ensures Resolved(batch, left + right, trace, [a] + m1 + m2, sampler, s1 + s2, f1 + f2, allocations2, states2)
  {
    hide Fared, OnlyGroup;
    var ids := left + right;
    NamesHalves(left, right, a, m1, m2);
    KeysOfHalves(left, right, s1, f1, s2, f2);
    hide Names;
    forall id | id in ids ensures Fared(batch, id, trace, [a] + m1 + m2, sampler, s1 + s2, f1 + f2, allocations2, states2) {
      Apart(left, right, id);
      var s, f := s1 + s2, f1 + f2;
      InHalves(left, right, s1, f1, s2, f2, id);
      if id in right {
        assert trace + [a] + m1 == trace + ([a] + m1);
        FaredLater(batch, id, trace, [a] + m1, m2, sampler, s2, f2, s, f, allocations2, states2);
      } else {
        FaredEarlier(batch, id, trace + [a], m1, m2, right, sampler, s1, f1, s, f, allocations1, allocations2, states1, states2);
        FaredLater(batch, id, trace, [a], m1 + m2, sampler, s, f, s, f, allocations2, states2);
        assert [a] + (m1 + m2) == [a] + m1 + m2;
      }
    }
  }

  lemma NamesHalves(left: seq<int>, right: seq<int>, a: Attempt, m1: seq<Attempt>, m2: seq<Attempt>)
    requires a.ids == left + right && Names(m1, left) && Names(m2, right)
    ensures Names([a] + m1 + m2, left + right)
  {
    forall x, id | x in [a] + m1 + m2 && id in x.ids ensures id in left + right {
      assert x == a || x in m1 || x in m2;
    }
  }

  lemma KeysOfHalves(left: seq<int>, right: seq<int>, s1: map<int, Token>, f1: map<int, Error>, s2: map<int, Token>, f2: map<int, Error>)
    requires s1.Keys + f1.Keys == (set x | x in left) && s2.Keys + f2.Keys == (set x | x in right)
    ensures (s1 + s2).Keys + (f1 + f2).Keys == set x | x in left + right
  {
    assert (s1 + s2).Keys + (f1 + f2).Keys == (s1.Keys + f1.Keys) + (s2.Keys + f2.Keys);
  }

  lemma InHalves(left: seq<int>, right: seq<int>, s1: map<int, Token>, f1: map<int, Error>, s2: map<int, Token>, f2: map<int, Error>, id: int)
    requires s1.Keys + f1.Keys == (set x | x in left) && s2.Keys + f2.Keys == (set x | x in right)
    requires (id in left) != (id in right)
    ensures id in right ==>
              && (id in s1 + s2 <==> id in s2) && (id in s2 ==> (s1 + s2)[id] == s2[id])
              && (id in f1 + f2 <==> id in f2) && (id in f2 ==> (f1 + f2)[id] == f2[id])
    ensures id in left ==>
              && (id in s1 + s2 <==> id in s1) && (id in s1 ==> (s1 + s2)[id] == s1[id])
              && (id in f1 + f2 <==> id in f1) && (id in f1 ==> (f1 + f2)[id] == f1[id])
  {
    assert id in s1.Keys + f1.Keys <==> id in left;
    assert id in s2.Keys + f2.Keys <==> id in right;
  }

  /** The tokens of a group that advanced. */
  ghost predicate Samples(batch: Batch, ids: seq<int>, sampler: Sampler, tokens: seq<Token>, states: RuntimeStates) {
    |tokens| == |ids| && forall i :: 0 <= i < |ids| ==>
      ids[i] in batch.rows && ids[i] in states && tokens[i] == SampleOf(sampler, batch.rows[ids[i]], states[ids[i]])
  }

  lemma GroupIsAllocated(
    batch: Batch, ids: seq<int>, trace: seq<Attempt>, numBlocks: nat, blockSize: nat, headroom: nat, free: seq<int>, refcounts: seq<nat>,
    allocations: Allocations, states: RuntimeStates)
    requires Consistent(numBlocks, blockSize, headroom, free, refcounts, allocations)
    requires Group(batch, ids, trace, false, allocations, states)
    ensures forall id :: id in ids ==> id in allocations && BlocksRequired(allocations[id].reservedTokens, blockSize) <= |allocations[id].blockIds|
    ensures blockSize > 0 && headroom <= |free|
    ensures AllRoomy(batch, ids, trace) ==> ExtraTotal(allocations, ids, 1, blockSize) == 0
  {
    hide Standing, Marks;
    if AllRoomy(batch, ids, trace) {
      RoomyIsFree(batch, ids, trace, numBlocks, blockSize, headroom, free, refcounts, allocations, states);
    }
    forall id | id in ids ensures id in allocations && BlocksRequired(allocations[id].reservedTokens, blockSize) <= |allocations[id].blockIds| {
      assert Stands(batch, id, trace, false, allocations, states);
      assert Sound(numBlocks, blockSize, id, allocations[id]);
    }
  }

  lemma GrewIsGroup(before: Allocations, now: Allocations, ids: seq<int>, blockSize: nat)
    requires blockSize > 0 && forall id :: id in ids ==> id in before && id in now && GrewOnto(before[id], 1, blockSize, now[id])
    requires forall id :: id in ids ==> id in before && BlocksRequired(before[id].reservedTokens, blockSize) <= |before[id].blockIds|
    ensures GrewGroup(before, now, ids, blockSize)
  {
  }

  lemma RecordedOne(faults: Faults, n: nat, a: Attempt)
    requires a.Reached? ==> a.fault == faults(n, a.ids)
    ensures Recorded(faults, n, [a], if a.Reached? then n + 1 else n)
    ensures Names([a], a.ids)
  {
    assert [a][..0] == [];
    assert Recorded(faults, n, [a][..0], n);
  }

  lemma Growable(
    batch: Batch, ids: seq<int>, trace: seq<Attempt>, before: Allocations, now: Allocations, states: RuntimeStates, blockSize: nat)
    requires Group(batch, ids, trace, false, before, states) && GrewGroup(before, now, ids, blockSize)
    ensures forall id :: id in ids ==>
              && id in batch.bases && id in batch.checkpoints && id in batch.rows && batch.rows[id].generated != []
              && id in now && id in states && batch.bases[id].numTokens <= now[id].numTokens
  {
    hide Marks, After;
    forall id | id in ids
      ensures && id in batch.bases && id in batch.checkpoints && id in batch.rows && batch.rows[id].generated != []
              && id in now && id in states && batch.bases[id].numTokens <= now[id].numTokens
    {
      assert Stands(batch, id, trace, false, before, states);
    }
  }

  lemma Halves(batch: Batch, ids: seq<int>, middle: nat, trace: seq<Attempt>, allocations: Allocations, states: RuntimeStates)
    requires middle <= |ids| && Distinct(ids) && Group(batch, ids, trace, false, allocations, states)
    ensures ids == ids[..middle] + ids[middle..] && Distinct(ids[..middle]) && Distinct(ids[middle..])
    ensures Group(batch, ids[..middle], trace, false, allocations, states) && Group(batch, ids[middle..], trace, false, allocations, states)
    ensures forall id :: id in ids[middle..] ==> id !in ids[..middle]
  {
    hide Stands;
    var left, right := ids[..middle], ids[middle..];
    assert ids == left + right;
    forall id | id in right ensures id !in left {
      Apart(left, right, id);
    }
  }

  lemma GroupElsewhere(
    batch: Batch, ids: seq<int>, trace: seq<Attempt>, more: seq<Attempt>, others: seq<int>,
    allocations: Allocations, allocations': Allocations, states: RuntimeStates, states': RuntimeStates)
    requires Group(batch, ids, trace, false, allocations, states) && Names(more, others)
    requires OnlyGroup(others, allocations, allocations', states, states') && forall id :: id in ids ==> id !in others
    ensures Group(batch, ids, trace + more, false, allocations', states')
  {
    hide Stands, OnlyGroup, Names;
    forall id | id in ids ensures Stands(batch, id, trace + more, false, allocations', states') {
      StandsElsewhere(batch, id, trace, more, others, false, allocations, allocations', states, states');
    }
  }

  lemma OneAttempt(batch: Batch, ids: seq<int>, trace: seq<Attempt>, a: Attempt, faults: Faults, calls: nat, calls': nat)
    requires a.ids == ids && (Succeeded(a) || |ids| == 1) && Recorded(faults, calls, [a], calls')
    requires AllRoomy(batch, ids, trace) ==> a.Reached?
    ensures RoomForAll([a]) ==> [a] == Bisection(faults, calls, ids)
    ensures AllRoomy(batch, ids, trace + [a]) ==> RoomForAll([a])
  {
    assert [a][..0] == [] && [a][0] == a;
    if AllRoomy(batch, ids, trace + [a]) {
      RoomyBefore(batch, ids, ids, trace, [a]);
    }
  }

  lemma HalvesProgress(
    faults: Faults, n0: nat, n1: nat, n2: nat, n3: nat, trace: seq<Attempt>, a: Attempt, m1: seq<Attempt>, m2: seq<Attempt>,
    left: seq<int>, right: seq<int>,
    al0: Allocations, al1: Allocations, al2: Allocations, al3: Allocations,
    st0: RuntimeStates, st1: RuntimeStates, st2: RuntimeStates, st3: RuntimeStates)
    requires Progress(faults, n0, n1, trace, trace + [a], [a], left + right, al0, al1, st0, st1) && a.ids == left + right
    requires Progress(faults, n1, n2, trace + [a], trace + [a] + m1, m1, left, al1, al2, st1, st2)
    requires Progress(faults, n2, n3, trace + [a] + m1, trace + [a] + m1 + m2, m2, right, al2, al3, st2, st3)
    ensures Progress(faults, n0, n3, trace, trace + [a] + m1 + m2, [a] + m1 + m2, left + right, al0, al3, st0, st3)
  {
    NamesHalves(left, right, a, m1, m2);
    RecordedJoin(faults, n0, [a], n1, m1, n2);
    RecordedJoin(faults, n0, [a] + m1, n2, m2, n3);
    hide Recorded, Names;
    assert trace + ([a] + m1 + m2) == trace + [a] + m1 + m2;
    assert forall id :: id !in left + right ==> id !in left && id !in right;
  }

  /** The attempts on a group of several, its halves included, are the bisection's. */
  lemma HalvesBisect(
    ids: seq<int>, a: Attempt, m1: seq<Attempt>, m2: seq<Attempt>, faults: Faults, n0: nat, n1: nat, n2: nat)
    requires |ids| > 1 && a.ids == ids && !Succeeded(a)
    requires Recorded(faults, n0, [a], n1) && Recorded(faults, n1, m1, n2)
    requires RoomForAll(m1) ==> m1 == Bisection(faults, n1, ids[..|ids| / 2])
    requires RoomForAll(m2) ==> m2 == Bisection(faults, n2, ids[|ids| / 2..])
    ensures RoomForAll([a] + m1 + m2) ==> [a] + m1 + m2 == Bisection(faults, n0, ids)
    ensures RoomForAll([a] + m1 + m2) <==> a.Reached? && RoomForAll(m1) && RoomForAll(m2)
  {
    hide Recorded, Bisection, RoomForAll;
    RoomForHalves(a, m1, m2);
    if RoomForAll([a] + m1 + m2) {
      FirstAnswer(faults, n0, a, n1);
      RecordedCount(faults, n1, m1, n2);
      BisectionSplits(faults, n0, ids);
    }
  }

  lemma FirstAnswer(faults: Faults, n: nat, a: Attempt, n': nat)
    requires Recorded(faults, n, [a], n') && a.Reached?
    ensures n' == n + 1 && a.fault == faults(n, a.ids)
  {
    assert [a][..0] == [];
  }

  lemma RoomForHalves(a: Attempt, m1: seq<Attempt>, m2: seq<Attempt>)
    ensures RoomForAll([a] + m1 + m2) <==> a.Reached? && RoomForAll(m1) && RoomForAll(m2)
  {
    assert forall x :: x in [a] + m1 + m2 <==> x == a || x in m1 || x in m2;
  }

  /** If the reservations suffice for these attempts, they are the ones that are made. */
  ghost predicate Planned(batch: Batch, ids: seq<int>, trace: seq<Attempt>, plan: seq<Attempt>, more: seq<Attempt>) {
    AllRoomy(batch, ids, trace + plan) ==> more == plan
  }

  lemma ThatIsPlanned(batch: Batch, ids: seq<int>, trace: seq<Attempt>, more: seq<Attempt>)
    ensures Planned(batch, ids, trace, more, more)
  {
  }

  lemma OnePlanned(batch: Batch, ids: seq<int>, trace: seq<Attempt>, a: Attempt, faults: Faults, calls: nat, calls': nat)
    requires a.ids == ids && (Succeeded(a) || |ids| == 1) && Recorded(faults, calls, [a], calls')
    requires AllRoomy(batch, ids, trace) ==> a.Reached?
    ensures Planned(batch, ids, trace, Bisection(faults, calls, ids), [a])
  {
    var plan := Bisection(faults, calls, ids);
    if AllRoomy(batch, ids, trace + plan) {
      RoomyBefore(batch, ids, ids, trace, plan);
      FirstAnswer(faults, calls, a, calls');
    }
  }

  lemma HalvesPlanned(
    batch: Batch, ids: seq<int>, trace: seq<Attempt>, a: Attempt, m1: seq<Attempt>, m2: seq<Attempt>, faults: Faults, n0: nat, n1: nat, n2: nat)
    requires |ids| > 1 && a.ids == ids && !Succeeded(a) && (AllRoomy(batch, ids, trace) ==> a.Reached?)
    requires Recorded(faults, n0, [a], n1) && Recorded(faults, n1, m1, n2)
    requires Planned(batch, ids[..|ids| / 2], trace + [a], Bisection(faults, n1, ids[..|ids| / 2]), m1)
    requires Planned(batch, ids[|ids| / 2..], trace + [a] + m1, Bisection(faults, n2, ids[|ids| / 2..]), m2)
    ensures Planned(batch, ids, trace, Bisection(faults, n0, ids), [a] + m1 + m2)
  {
    hide Recorded, Bisection, AllRoomy, RoomForAll;
    var plan, left, right := Bisection(faults, n0, ids), ids[..|ids| / 2], ids[|ids| / 2..];
    if AllRoomy(batch, ids, trace + plan) {
      RoomyBefore(batch, ids, ids, trace, plan);
      FirstAnswer(faults, n0, a, n1);
      BisectionSplits(faults, n0, ids);
      var b1 := Bisection(faults, n1, left);
      var b2 := Bisection(faults, n1 + |b1|, right);
      HalvesOfPlan(batch, ids, left, right, trace, plan, a, b1, b2);
      BisectionHasRoom(faults, n1, left);
      RecordedCount(faults, n1, m1, n2);
    }
  }

  lemma HalvesOfPlan(
    batch: Batch, ids: seq<int>, left: seq<int>, right: seq<int>, trace: seq<Attempt>, plan: seq<Attempt>,
    a: Attempt, b1: seq<Attempt>, b2: seq<Attempt>)
    requires plan == [a] + b1 + b2 && AllRoomy(batch, ids, trace + plan)
    requires (forall id :: id in left ==> id in ids) && forall id :: id in right ==> id in ids
    ensures AllRoomy(batch, left, trace + [a] + b1) && AllRoomy(batch, right, trace + [a] + b1 + b2)
  {
    hide AllRoomy;
    assert trace + plan == (trace + [a] + b1) + b2 == (trace + [a] + b1 + b2) + [];
    RoomyBefore(batch, ids, left, trace + [a] + b1, b2);
    RoomyBefore(batch, ids, right, trace + [a] + b1 + b2, []);
  }

  lemma AgainPlanned(batch: Batch, ids: seq<int>, a: Attempt, m: seq<Attempt>, faults: Faults, n0: nat, n1: nat)
    requires a.ids == ids && !Succeeded(a) && Recorded(faults, n0, [a], n1) && (AllRoomy(batch, ids, []) ==> a.Reached?)
    requires Planned(batch, ids, [a], Bisection(faults, n1, ids), m)
    ensures Planned(batch, ids, [], StepAttempts(faults, n0, ids), [a] + m)
  {
    var plan := StepAttempts(faults, n0, ids);
    if AllRoomy(batch, ids, [] + plan) {
      RoomyBefore(batch, ids, ids, [], plan);
      FirstAnswer(faults, n0, a, n1);
      hide Recorded, Bisection, AllRoomy;
      assert [] + plan == [a] + Bisection(faults, n1, ids);
    }
  }

  lemma HalvesRoomy(batch: Batch, ids: seq<int>, trace: seq<Attempt>, a: Attempt, m1: seq<Attempt>, m2: seq<Attempt>)
    requires |ids| > 1 && AllRoomy(batch, ids, trace + [a] + m1 + m2)
    ensures AllRoomy(batch, ids, trace)
    ensures AllRoomy(batch, ids[..|ids| / 2], trace + [a] + m1) && AllRoomy(batch, ids[|ids| / 2..], trace + [a] + m1 + m2)
  {
    hide AllRoomy;
    var left, right := ids[..|ids| / 2], ids[|ids| / 2..];
    assert trace + ([a] + m1 + m2) == trace + [a] + m1 + m2 == trace + [a] + m1 + m2 + [];
    RoomyBefore(batch, ids, ids, trace, [a] + m1 + m2);
    RoomyBefore(batch, ids, left, trace + [a] + m1, m2);
    RoomyBefore(batch, ids, right, trace + [a] + m1 + m2, []);
  }

  /** What an attempt, or the bisection of a group, does besides. */
  ghost predicate Progress(
    faults: Faults, calls: nat, calls': nat, trace: seq<Attempt>, trace': seq<Attempt>, more: seq<Attempt>, ids: seq<int>,
    before: Allocations, now: Allocations, was: RuntimeStates, states: RuntimeStates)
  {
    && trace' == trace + more && Names(more, ids) && Recorded(faults, calls, more, calls')
    && OnlyGroup(ids, before, now, was, states)
  }

  // ----- a whole step

  function Successes(ids: seq<int>, outcome: Outcome): map<int, Token>
    requires Distinct(ids) && (outcome.Decoded? ==> |outcome.tokens| == |ids|)
  {
    if outcome.Decoded? then Zip(ids, outcome.tokens) else outcome.successes
  }

  function Failures(outcome: Outcome): map<int, Error> {
    if outcome.Decoded? then map[] else outcome.failures
  }

  /** Every request of the step fared as the outcome says, and the outcome is partial exactly when somebody failed. */
  ghost predicate Ended(
    batch: Batch, ids: seq<int>, trace: seq<Attempt>, sampler: Sampler, outcome: Outcome, allocations: Allocations, states: RuntimeStates)
  {
    && Distinct(ids) && (outcome.Decoded? ==> |outcome.tokens| == |ids|)
    && (outcome.PartialDecode? ==> outcome.failures != map[])
    && Resolved(batch, ids, [], trace, sampler, Successes(ids, outcome), Failures(outcome), allocations, states)
  }

  /**
   A request failed if and only if the last attempt that named it named it alone and did
   not succeed; its error is that attempt's.
   */
  lemma FailsIff(
    batch: Batch, ids: seq<int>, trace: seq<Attempt>, sampler: Sampler, outcome: Outcome, allocations: Allocations, states: RuntimeStates,
    id: int) returns (k: nat)
    requires Ended(batch, ids, trace, sampler, outcome, allocations, states) && id in ids
    ensures IsLast(trace, k, id)
    ensures id in Failures(outcome) <==> trace[k].ids == [id] && !Succeeded(trace[k])
    ensures id in Failures(outcome) ==> Failures(outcome)[id] == ErrorOf(trace[k])
    ensures id in Successes(ids, outcome) <==> Succeeded(trace[k])
  {
    hide Standing, Marks;
    assert Fared(batch, id, [], trace, sampler, Successes(ids, outcome), Failures(outcome), allocations, states) by {
      hide Fared;
    }
    k := LastIs(trace, id);
  }

  function RowIds(rows: seq<Row>): seq<int> {
    seq(|rows|, i requires 0 <= i < |rows| => rows[i].spec.id)
  }

  lemma UniqueIds(rows: seq<Row>)
    ensures UniqueRows(rows) <==> Distinct(RowIds(rows))
  {
    var ids := RowIds(rows);
    if Distinct(ids) {
      forall i, j | 0 <= i < j < |rows| ensures rows[i].spec.id != rows[j].spec.id {
        assert ids[i] != ids[j];
      }
    }
  }

  /** Every row's request holds pages and a state. */
  predicate Known(rows: seq<Row>, allocations: Allocations, states: RuntimeStates) {
    forall i :: 0 <= i < |rows| ==> rows[i].spec.id in allocations && rows[i].spec.id in states
  }

  function BatchOf(rows: seq<Row>, allocations: Allocations, states: RuntimeStates): Batch
    requires UniqueRows(rows)
  {
    Batch(map i | 0 <= i < |rows| :: rows[i].spec.id := rows[i], allocations, states)
  }

  lemma GroupAtFirst(rows: seq<Row>, allocations: Allocations, states: RuntimeStates)
    requires UniqueRows(rows) && Known(rows, allocations, states)
    requires forall i :: 0 <= i < |rows| ==> rows[i].generated != []
    ensures Group(BatchOf(rows, allocations, states), RowIds(rows), [], false, allocations, states)
  {
    var batch := BatchOf(rows, allocations, states);
    forall id | id in RowIds(rows) ensures Stands(batch, id, [], false, allocations, states) {
      var i :| 0 <= i < |rows| && rows[i].spec.id == id;
      CleanIff(states[id], TokenOf(rows[i]), 0, false);
    }
  }

  lemma NobodyEnded(sampler: Sampler, allocations: Allocations, states: RuntimeStates)
    ensures Ended(BatchOf([], allocations, states), RowIds([]), [], sampler, Decoded([]), allocations, states)
    ensures Known([], allocations, states)
  {
  }

  lemma NothingRecorded(faults: Faults, n: nat)
    ensures Recorded(faults, n, [], n)
  {
  }

  /** After a failed attempt on everybody, what the bisection decides is what counts. */
  lemma ResolvedAgain(
    batch: Batch, ids: seq<int>, a: Attempt, more: seq<Attempt>, sampler: Sampler,
    successes: map<int, Token>, failures: map<int, Error>, allocations: Allocations, states: RuntimeStates)
    requires a.ids == ids && Resolved(batch, ids, [a], more, sampler, successes, failures, allocations, states)
    ensures Resolved(batch, ids, [], [a] + more, sampler, successes, failures, allocations, states)
  {
    hide Fared;
    assert [] + [a] == [a];
    forall id | id in ids ensures Fared(batch, id, [], [a] + more, sampler, successes, failures, allocations, states) {
      FaredLater(batch, id, [], [a], more, sampler, successes, failures, successes, failures, allocations, states);
    }
  }

  lemma StepAtOnce(batch: Batch, ids: seq<int>, a: Attempt, faults: Faults, calls: nat, calls': nat)
    requires a.ids == ids && Succeeded(a) && Recorded(faults, calls, [a], calls')
    ensures [a] == StepAttempts(faults, calls, ids) && RoomForAll([a])
  {
    FirstAnswer(faults, calls, a, calls');
  }

  lemma StepAgain(
    ids: seq<int>, a: Attempt, m: seq<Attempt>, faults: Faults, n0: nat, n1: nat, n2: nat,
    al0: Allocations, al1: Allocations, al2: Allocations, st0: RuntimeStates, st1: RuntimeStates, st2: RuntimeStates)
    requires Progress(faults, n0, n1, [], [a], [a], ids, al0, al1, st0, st1)
    requires Progress(faults, n1, n2, [a], [a] + m, m, ids, al1, al2, st1, st2)
    ensures Progress(faults, n0, n2, [], [a] + m, [a] + m, ids, al0, al2, st0, st2)
  {
    RecordedJoin(faults, n0, [a], n1, m, n2);
    hide Recorded;
    assert [] + ([a] + m) == [a] + m;
  }

  lemma AgainAttempts(batch: Batch, ids: seq<int>, a: Attempt, m: seq<Attempt>, faults: Faults, n0: nat, n1: nat)
    requires a.ids == ids && !Succeeded(a) && Recorded(faults, n0, [a], n1)
    requires RoomForAll(m) ==> m == Bisection(faults, n1, ids)
    requires (AllRoomy(batch, ids, []) ==> a.Reached?) && (AllRoomy(batch, ids, [a] + m) ==> RoomForAll(m))
    ensures RoomForAll([a] + m) ==> [a] + m == StepAttempts(faults, n0, ids)
    ensures AllRoomy(batch, ids, [a] + m) ==> RoomForAll([a] + m)
  {
    assert forall x :: x in [a] + m <==> x == a || x in m;
    if AllRoomy(batch, ids, [a] + m) {
      assert [] + ([a] + m) == [a] + m;
      RoomyBefore(batch, ids, ids, [], [a] + m);
    }
    if a.Reached? {
      FirstAnswer(faults, n0, a, n1);
    }
    hide Recorded, Bisection, AllRoomy;
  }

  lemma AllSucceeded(
    batch: Batch, ids: seq<int>, trace: seq<Attempt>, more: seq<Attempt>, sampler: Sampler, successes: map<int, Token>,
    allocations: Allocations, states: RuntimeStates)
    requires Resolved(batch, ids, trace, more, sampler, successes, map[], allocations, states)
    ensures forall id :: id in successes <==> id in ids
  {
    assert successes.Keys == set id | id in ids;
  }

  lemma ZipIsMap<V>(ids: seq<int>, values: seq<V>, m: map<int, V>)
    requires Distinct(ids) && |values| == |ids| && forall id :: id in m <==> id in ids
    requires forall i :: 0 <= i < |ids| ==> ids[i] in m && m[ids[i]] == values[i]
    ensures Zip(ids, values) == m
  {
    forall id | id in m ensures Zip(ids, values)[id] == m[id] {
      var i :| 0 <= i < |ids| && ids[i] == id;
    }
  }

  class RuntimeGenerationBackend {
    const manager: KVBlockManager
    /** How the runtime's n-th call ends, given the batch. */
    const faults: Faults
    const sampler: Sampler
    var runtimeCalls: nat
    var states: RuntimeStates
    /** The current step's attempts. */
    ghost var trace: seq<Attempt>

    constructor (manager: KVBlockManager, faults: Faults, sampler: Sampler, states: RuntimeStates)
      ensures this.manager == manager && this.faults == faults && this.sampler == sampler && this.states == states
      ensures runtimeCalls == 0 && trace == []
    {
      this.manager := manager;
      this.faults := faults;
      this.sampler := sampler;
      this.states := states;
      runtimeCalls := 0;
      trace := [];
    }

    /** Rolls a group back after a failure. */
    method Restore(batch: Batch, ids: seq<int>)
      requires manager.Valid() && Distinct(ids)
      requires forall id :: id in ids ==>
                 && id in batch.bases && id in batch.checkpoints && id in manager.allocations && id in states
                 && batch.bases[id].numTokens <= manager.allocations[id].numTokens
      modifies manager, this`states
      ensures manager.Valid()
      ensures OnlyGroup(ids, old(manager.allocations), manager.allocations, old(states), states)
      ensures forall id :: id in ids ==>
                && manager.allocations[id] == old(manager.allocations)[id].(numTokens := batch.bases[id].numTokens)
                && states[id] == Restored(old(states)[id], batch.checkpoints[id])
    {
      hide Consistent, SameExternal, Restored, Holders;
      for i := 0 to |ids|
        invariant manager.Valid()
        invariant OnlyGroup(ids[..i], old(manager.allocations), manager.allocations, old(states), states)
        invariant forall id :: id in ids[..i] ==>
                    && manager.allocations[id] == old(manager.allocations)[id].(numTokens := batch.bases[id].numTokens)
                    && states[id] == Restored(old(states)[id], batch.checkpoints[id])
      {
        NotYet(ids, i);
        var id := ids[i];
        var truncated := manager.Truncate(id, batch.bases[id].numTokens);
        states := states[id := Restored(states[id], batch.checkpoints[id])];
      }
      assert ids[..|ids|] == ids;
    }

    /** One attempt on a group: every request of it is advanced, or none is, and the attempt says which and why. */
    method AttemptGroup(batch: Batch, ids: seq<int>) returns (r: Result<seq<Token>>, ghost attempt: Attempt)
      requires manager.Valid() && Distinct(ids) && Group(batch, ids, trace, false, manager.allocations, states)
      modifies manager, this`states, this`runtimeCalls, this`trace
      ensures manager.Valid() && attempt.ids == ids
      ensures Progress(faults, old(runtimeCalls), runtimeCalls, old(trace), trace, [attempt], ids,
                       old(manager.allocations), manager.allocations, old(states), states)
      ensures Group(batch, ids, trace, Succeeded(attempt), manager.allocations, states)
      ensures r.Ok? <==> Succeeded(attempt)
      ensures r.Err? ==> r.error == ErrorOf(attempt)
      ensures r.Ok? ==> |r.value| == |ids| && Samples(batch, ids, sampler, r.value, states)
      ensures AllRoomy(batch, ids, old(trace)) ==> attempt.Reached?
    {
      hide Consistent, SameExternal, Group, GrewGroup, Recorded, ExtraTotal, GrewAll, Samples;
      GroupIsAllocated(batch, ids, trace, manager.numBlocks, manager.blockSize, manager.headroomBlocks, manager.free, manager.refcounts,
                       manager.allocations, states);
      ghost var before, free, was := manager.allocations, manager.free, trace;
      var grown := manager.GrowMany(ids, 1);
      if grown.Err? {
        attempt := NoRoom(ids);
        GroupRefused(batch, ids, trace, manager.allocations, states);
        RecordedOne(faults, runtimeCalls, attempt);
        trace := trace + [attempt];
        return Err(grown.error), attempt;
      }
      GrewEach(before, free, ids, 1, manager.blockSize, manager.allocations, grown.value);
      GrewIsGroup(before, manager.allocations, ids, manager.blockSize);
      r, attempt := Run(batch, ids, before);
    }

    /** The runtime call of an attempt, its rollback, and the sampling. */
    method Run(batch: Batch, ids: seq<int>, ghost before: Allocations) returns (r: Result<seq<Token>>, ghost attempt: Attempt)
      requires manager.Valid() && Distinct(ids) && Group(batch, ids, trace, false, before, states)
      requires GrewGroup(before, manager.allocations, ids, manager.blockSize)
      modifies manager, this`states, this`runtimeCalls, this`trace
      ensures manager.Valid()
      ensures attempt == Reached(ids, faults(old(runtimeCalls), ids))
      ensures Progress(faults, old(runtimeCalls), runtimeCalls, old(trace), trace, [attempt], ids,
                       old(manager.allocations), manager.allocations, old(states), states)
      ensures Group(batch, ids, trace, Succeeded(attempt), manager.allocations, states)
      ensures r.Ok? <==> Succeeded(attempt)
      ensures r.Err? ==> r.error == RuntimeError
      ensures r.Ok? ==> |r.value| == |ids| && Samples(batch, ids, sampler, r.value, states)
    {
      hide Consistent, Restored, Committed, Group, GrewGroup, Recorded, Distinct;
      var fault := faults(runtimeCalls, ids);
      attempt := Reached(ids, fault);
      RecordedOne(faults, runtimeCalls, attempt);
      ghost var was, grown, earlier := states, manager.allocations, trace;
      Growable(batch, ids, trace, before, manager.allocations, states, manager.blockSize);
      runtimeCalls := runtimeCalls + 1;
      trace := trace + [attempt];
      Call(batch, ids, fault);
      GroupReached(batch, ids, earlier, fault, before, grown, manager.allocations, was, states, manager.blockSize);
      if !fault.NoFault? {
        return Err(RuntimeError), attempt;
      }
      var stepped, rows := states, batch.rows;
      forall i | 0 <= i < |ids| ensures ids[i] in stepped && ids[i] in rows {
        var id := ids[i];
        assert id in ids;
      }
      r := Ok(seq(|ids|, i requires 0 <= i < |ids| && ids[i] in stepped && ids[i] in rows => SampleOf(sampler, rows[ids[i]], stepped[ids[i]])));
    }

    /** What a call that ends this way leaves; a failure while the input is built is not rolled back. */
    method Call(batch: Batch, ids: seq<int>, fault: Fault)
      requires manager.Valid() && Distinct(ids)
      requires forall id :: id in ids ==>
                 && id in batch.bases && id in batch.checkpoints && id in batch.rows && batch.rows[id].generated != []
                 && id in manager.allocations && id in states && batch.bases[id].numTokens <= manager.allocations[id].numTokens
      modifies manager, this`states
      ensures manager.Valid() && OnlyGroup(ids, old(manager.allocations), manager.allocations, old(states), states)
      ensures Left(batch, ids, fault, old(manager.allocations), manager.allocations, old(states), states)
    {
      hide Consistent, Restored, Committed, Distinct;
      if fault.BeforeCommit? {
        Restore(batch, ids);
      } else if fault.AfterCommit? {
        Publish(batch, ids);
        Restore(batch, ids);
      } else if fault.NoFault? {
        Publish(batch, ids);
      }
    }

    /** The runtime publishes the stepped states of a group. */
    method Publish(batch: Batch, ids: seq<int>)
      requires forall id :: id in ids ==> id in batch.rows && batch.rows[id].generated != [] && id in states
      modifies this`states
      ensures states.Keys == old(states).Keys && forall id :: id in states && id !in ids ==> states[id] == old(states)[id]
      ensures forall id :: id in ids ==> states[id] == Committed(old(states)[id], TokenOf(batch.rows[id]))
    {
      hide Committed;
      states := map id | id in states ::
        if id in ids && id in batch.rows && batch.rows[id].generated != [] then Committed(states[id], TokenOf(batch.rows[id])) else states[id];
    }

    /** Bisects a group until its failures stand alone. */
    method Isolate(batch: Batch, ids: seq<int>) returns (successes: map<int, Token>, failures: map<int, Error>, ghost more: seq<Attempt>)
      requires manager.Valid() && Distinct(ids) && Group(batch, ids, trace, false, manager.allocations, states) && ids != []
      modifies manager, this`states, this`runtimeCalls, this`trace
      ensures manager.Valid()
      ensures Progress(faults, old(runtimeCalls), runtimeCalls, old(trace), trace, more, ids,
                       old(manager.allocations), manager.allocations, old(states), states)
      ensures 0 < |more| < 2 * |ids|
      ensures Resolved(batch, ids, old(trace), more, sampler, successes, failures, manager.allocations, states)
      ensures RoomForAll(more) ==> more == Bisection(faults, old(runtimeCalls), ids)
      ensures AllRoomy(batch, ids, trace) ==> RoomForAll(more)
      ensures Planned(batch, ids, old(trace), Bisection(faults, old(runtimeCalls), ids), more)
      decreases |ids|
    {
      hide Consistent, Group, Resolved, AllRoomy, Distinct, OnlyGroup, Recorded, Samples, Names, Planned;
      ghost var was, calls := trace, runtimeCalls;
      var attempt;
      ghost var a;
      attempt, a := AttemptGroup(batch, ids);
      if attempt.Ok? || |ids| == 1 {
        more := [a];
        if attempt.Ok? {
          successes, failures := Zip(ids, attempt.value), map[];
          ResolvedAtOnce(batch, ids, was, a, sampler, attempt.value, manager.allocations, states);
        } else {
          successes, failures := map[], map[ids[0] := attempt.error];
          ResolvedAlone(batch, ids[0], was, a, sampler, manager.allocations, states);
          assert ids == [ids[0]];
        }
        OneAttempt(batch, ids, was, a, faults, calls, runtimeCalls);
        OnePlanned(batch, ids, was, a, faults, calls, runtimeCalls);
      } else {
        ghost var allocations0, states0 := manager.allocations, states;
        var left, right := ids[..|ids| / 2], ids[|ids| / 2..];
        Halves(batch, ids, |ids| / 2, trace, manager.allocations, states);
        var s1, f1, s2, f2;
        ghost var m1, m2;
        ghost var calls1 := runtimeCalls;
        s1, f1, m1 := Isolate(batch, left);
        ghost var calls2, allocations1, states1 := runtimeCalls, manager.allocations, states;
        GroupElsewhere(batch, right, was + [a], m1, left, allocations0, allocations1, states0, states1);
        s2, f2, m2 := Isolate(batch, right);
        more := [a] + m1 + m2;
        successes, failures := s1 + s2, f1 + f2;
        ResolvedHalves(batch, left, right, was, a, m1, m2, sampler, s1, f1, s2, f2, allocations1, states1, manager.allocations, states);
        HalvesProgress(faults, calls, calls1, calls2, runtimeCalls, was, a, m1, m2, left, right,
                       old(manager.allocations), allocations0, allocations1, manager.allocations, old(states), states0, states1, states);
        HalvesBisect(ids, a, m1, m2, faults, calls, calls1, calls2);
        HalvesPlanned(batch, ids, was, a, m1, m2, faults, calls, calls1, calls2);
        if AllRoomy(batch, ids, trace) {
          HalvesRoomy(batch, ids, was, a, m1, m2);
        }
      }
    }

    /** One decode step: the whole batch at once, and by bisection when that fails. */
    method Step(batch: Batch, ids: seq<int>) returns (outcome: Outcome)
      requires manager.Valid() && Distinct(ids) && ids != [] && trace == []
      requires Group(batch, ids, [], false, manager.allocations, states)
      modifies manager, this`states, this`runtimeCalls, this`trace
      ensures manager.Valid() && 0 < |trace| <= 2 * |ids|
      ensures Progress(faults, old(runtimeCalls), runtimeCalls, [], trace, trace, ids,
                       old(manager.allocations), manager.allocations, old(states), states)
      ensures Ended(batch, ids, trace, sampler, outcome, manager.allocations, states)
      ensures RoomForAll(trace) ==> trace == StepAttempts(faults, old(runtimeCalls), ids)
      ensures AllRoomy(batch, ids, trace) ==> RoomForAll(trace)
      ensures Planned(batch, ids, [], StepAttempts(faults, old(runtimeCalls), ids), trace)
    {
      hide Planned;
      hide Consistent, Group, Resolved, AllRoomy, Distinct, OnlyGroup, Recorded, Samples, Names;
      ghost var calls := runtimeCalls;
      var attempt;
      ghost var a;
      attempt, a := AttemptGroup(batch, ids);
      ghost var calls1, allocations1, states1 := runtimeCalls, manager.allocations, states;
      assert [] + [a] == [a];
      if attempt.Ok? {
        outcome := Decoded(attempt.value);
        ResolvedAtOnce(batch, ids, [], a, sampler, attempt.value, manager.allocations, states);
        StepAtOnce(batch, ids, a, faults, calls, calls1);
        ThatIsPlanned(batch, ids, [], trace);
        return;
      }
      var successes, failures;
      ghost var m;
      successes, failures, m := Isolate(batch, ids);
      ResolvedAgain(batch, ids, a, m, sampler, successes, failures, manager.allocations, states);
      StepAgain(ids, a, m, faults, calls, calls1, runtimeCalls, old(manager.allocations), allocations1, manager.allocations,
                old(states), states1, states);
      AgainAttempts(batch, ids, a, m, faults, calls, calls1);
      AgainPlanned(batch, ids, a, m, faults, calls, calls1);
      if failures != map[] {
        return PartialDecode(successes, failures);
      }
      AllSucceeded(batch, ids, [], [a] + m, sampler, successes, manager.allocations, states);
      forall i | 0 <= i < |ids| ensures ids[i] in successes {
        var id := ids[i];
        assert id in ids;
      }
      outcome := Decoded(seq(|ids|, i requires 0 <= i < |ids| && ids[i] in successes => successes[ids[i]]));
      ZipIsMap(ids, outcome.tokens, successes);
    }

    /**
     A decode call. It refuses duplicates and requests without pages or a state, and then
     changes nothing. Otherwise the runtime is called at most twice per request, what it
     answered is in `trace`, and every request is where these answers put it; the rest of
     the worker is untouched. While the reservations last, the answers alone decide the
     calls.
     */
    method Decode(rows: seq<Row>) returns (r: Result<Outcome>)
      requires manager.Valid() && forall i :: 0 <= i < |rows| ==> rows[i].generated != []
      modifies manager, this`states, this`runtimeCalls, this`trace
      ensures manager.Valid()
      ensures r == Err(ValueError) <==> !UniqueRows(rows)
      ensures r == Err(KeyError) <==> UniqueRows(rows) && !Known(rows, old(manager.allocations), old(states))
      ensures r.Err? ==> r.error in {ValueError, KeyError}
      ensures r.Err? || rows == [] ==> manager.allocations == old(manager.allocations) && states == old(states) && runtimeCalls == old(runtimeCalls)
      ensures rows == [] ==> r == Ok(Decoded([]))
      ensures r.Ok? ==> |trace| <= 2 * |rows|
      ensures r.Ok? ==> Progress(faults, old(runtimeCalls), runtimeCalls, [], trace, trace, RowIds(rows),
                                 old(manager.allocations), manager.allocations, old(states), states)
      ensures r.Ok? ==> Ended(BatchOf(rows, old(manager.allocations), old(states)), RowIds(rows), trace, sampler, r.value,
                              manager.allocations, states)
      ensures r.Ok? && rows != [] && RoomForAll(trace) ==> trace == StepAttempts(faults, old(runtimeCalls), RowIds(rows))
      ensures r.Ok? && AllRoomy(BatchOf(rows, old(manager.allocations), old(states)), RowIds(rows), trace) ==> RoomForAll(trace)
      ensures r.Ok? && rows != [] ==>
                Planned(BatchOf(rows, old(manager.allocations), old(states)), RowIds(rows), [],
                        StepAttempts(faults, old(runtimeCalls), RowIds(rows)), trace)
    {
      hide Consistent, Recorded, StepAttempts, Ended, Group, AllRoomy, Distinct, Samples, Known, Planned;
      trace := [];
      if rows == [] {
        NobodyEnded(sampler, manager.allocations, states);
        NothingRecorded(faults, runtimeCalls);
        return Ok(Decoded([]));
      }
      UniqueIds(rows);
      if !UniqueRows(rows) {
        return Err(ValueError);
      }
      if !Known(rows, manager.allocations, states) {
        return Err(KeyError);
      }
      GroupAtFirst(rows, manager.allocations, states);
      var outcome := Step(BatchOf(rows, manager.allocations, states), RowIds(rows));
      r := Ok(outcome);
    }
  }

  function Zip<V>(ids: seq<int>, values: seq<V>): (m: map<int, V>)
    requires |ids| == |values| && Distinct(ids)
    ensures forall id :: id in m <==> id in ids
    ensures forall i :: 0 <= i < |ids| ==> ids[i] in m && m[ids[i]] == values[i]
  {
    map i | 0 <= i < |ids| :: ids[i] := values[i]
  }
}
