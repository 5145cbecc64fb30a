/** One request whose token is folded twice. */
module LateFailure {
  import opened Basics
  import opened BlockManager
  import opened GenerationStream
  import opened GenerationBackend
  import opened BackendAdmission
  import opened DecodeTrace
  import opened DecodeTransaction
  import opened RuntimeBackend

  /** The first runtime call fails when its stepped states are published; no other fails. */
  function FirstIsLate(n: nat, ids: seq<int>): Fault {
    if n == 0 then AfterCommit else NoFault
  }

  function Sevens(id: int, folded: seq<Token>, history: seq<Token>, step: nat): Token {
    7
  }

  const ASKED := Spec(0, true, [10], 5, 0, None, false, [])

  const ROW := Row(ASKED, [7])

  /** The attempts: on the whole batch, and again on its only request. */
  lemma TwoAttempts()
    ensures StepAttempts(FirstIsLate, 0, [0]) == [Reached([0], AfterCommit), Reached([0], NoFault)]
    ensures Marks(StepAttempts(FirstIsLate, 0, [0]), 0) == Mark(1, 0, 0, Some(Reached([0], NoFault)))
  {
    assert Bisection(FirstIsLate, 1, [0]) == [Reached([0], NoFault)];
    MarksNext([], Reached([0], AfterCommit), 0);
    MarksNext([Reached([0], AfterCommit)], Reached([0], NoFault), 0);
    assert [] + [Reached([0], AfterCommit)] == [Reached([0], AfterCommit)];
    assert [Reached([0], AfterCommit)] + [Reached([0], NoFault)] == [Reached([0], AfterCommit), Reached([0], NoFault)];
  }

  lemma NoneUnbuilt(trace: seq<Attempt>, n: nat, n': nat)
    requires Recorded(FirstIsLate, n, trace, n')
    ensures Marks(trace, 0).unbuilt == 0
  {
    MarksAre(trace, 0);
    forall a | a in trace && a.Reached? && 0 in a.ids ensures !a.fault.Unbuilt? {
      var call := RecordedAnswers(FirstIsLate, n, trace, n', a);
    }
  }

  /**
   One request on its own, with pages for its whole answer, on a runtime whose state is
   stepped in place. The step reports a token and no failure; the token it started from
   is folded into the state twice, on one KV position.
   */
  method LateFailureFoldsTwice() returns (engine: RuntimeGenerationBackend, outcome: Outcome)
    ensures engine.faults == FirstIsLate && outcome == Decoded([7])
    ensures 0 in engine.states && engine.states[0].folded == [10, 7, 7]
    ensures 0 in engine.manager.allocations && engine.manager.allocations[0].numTokens == 2
  {
    hide Consistent, Recorded, Ended, AllRoomy, StepAttempts, Standing, Marks;
    var manager := new KVBlockManager(5, 1, 0);
    var desk := new AdmissionDesk(manager, 1);
    var granted := desk.Grant(0, 1, 5);
    assert BlocksRequired(5, 1) == 5;
    engine := new RuntimeGenerationBackend(manager, FirstIsLate, Sevens, map[0 := RuntimeState(1, [10], InPlace)]);
    ghost var before, was := manager.allocations, engine.states;
    var r := engine.Decode([ROW]);
    outcome := r.value;
    Outcomes(engine.trace, outcome, engine.runtimeCalls, before, was, manager.allocations, engine.states);
  }

  lemma Outcomes(
    trace: seq<Attempt>, outcome: Outcome, calls: nat, before: Allocations, was: RuntimeStates, after: Allocations, now: RuntimeStates)
    requires 0 in before && before[0].numTokens == 1 && before[0].reservedTokens == 5 && was == map[0 := RuntimeState(1, [10], InPlace)]
    requires Recorded(FirstIsLate, 0, trace, calls)
    requires Ended(BatchOf([ROW], before, was), RowIds([ROW]), trace, Sevens, outcome, after, now)
    requires RoomForAll(trace) ==> trace == StepAttempts(FirstIsLate, 0, RowIds([ROW]))
    requires AllRoomy(BatchOf([ROW], before, was), RowIds([ROW]), trace) ==> RoomForAll(trace)
    ensures outcome == Decoded([7]) && 0 in now && now[0].folded == [10, 7, 7] && 0 in after && after[0].numTokens == 2
  {
    var batch, ids := BatchOf([ROW], before, was), RowIds([ROW]);
    assert ids == [0];
    HasRoom(trace, calls, before, was);
    TwoAttempts();
    hide Recorded, Marks, StepAttempts, Standing, AllRoomy, Zip, RoomForAll, Names;
    assert 0 in ids && [] + trace == trace;
    var successes, failures := Successes(ids, outcome), Failures(outcome);
    assert Fared(batch, 0, [], trace, Sevens, successes, failures, after, now);
    FoldedTwice(before[0], was[0], after[0], now[0]);
    OnlySuccess(outcome, ids);
  }

  lemma HasRoom(trace: seq<Attempt>, calls: nat, before: Allocations, was: RuntimeStates)
    requires 0 in before && before[0].numTokens == 1 && before[0].reservedTokens == 5 && Recorded(FirstIsLate, 0, trace, calls)
    ensures AllRoomy(BatchOf([ROW], before, was), RowIds([ROW]), trace)
  {
    NoneUnbuilt(trace, 0, calls);
    hide Recorded, Marks;
  }

  lemma OnlySuccess(outcome: Outcome, ids: seq<int>)
    requires ids == [0] && (outcome.Decoded? ==> |outcome.tokens| == |ids|) && (outcome.PartialDecode? ==> outcome.failures != map[])
    requires 0 in Successes(ids, outcome) && Successes(ids, outcome)[0] == 7 && 0 !in Failures(outcome)
    requires Successes(ids, outcome).Keys + Failures(outcome).Keys == set id | id in ids
    ensures outcome == Decoded([7])
  {
    forall id ensures id !in Failures(outcome) {
      assert id in Successes(ids, outcome).Keys + Failures(outcome).Keys <==> id in ids;
    }
    assert Failures(outcome) == map[];
    assert ids[0] == 0 && outcome.tokens == [outcome.tokens[0]];
  }

  lemma FoldedTwice(base: BlockAllocation, checkpoint: RuntimeState, a: BlockAllocation, s: RuntimeState)
    requires base.numTokens == 1 && checkpoint == RuntimeState(1, [10], InPlace)
    requires Standing(base, checkpoint, 7, Mark(1, 0, 0, Some(Reached([0], NoFault))), true, a, s)
    ensures a.numTokens == 2 && s.folded == [10, 7, 7]
  {
    assert Repeat(7, 0) + [7] == [7] && [7] + [7] == [7, 7] && [10] + [7, 7] == [10, 7, 7];
  }
}
