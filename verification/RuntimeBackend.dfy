/**
 The runtime backend meets the contracts the serving loop is proved against, as far as
 the runtime leaves no trace of a failed attempt; the exact condition is `MeetsIff`.
 */
module RuntimeBackend {
  import opened Basics
  import opened BlockManager
  import opened GenerationStream
  import opened GenerationBackend
  import opened BackendAdmission
  import opened DecodeTrace
  import opened DecodeTransaction

  /** What the serving loop sees of a worker: the folded tokens, and the KV length. */
  function Abstract(allocations: Allocations, states: RuntimeStates): States {
    map id | id in states && id in allocations :: Kept(states[id].folded, allocations[id].numTokens)
  }

  function ReplyOf(outcome: Outcome): Reply {
    match outcome
    case Decoded(tokens) => Tokens(tokens)
    case PartialDecode(successes, failures) => Partial(successes, failures.Keys)
  }

  /** Nothing of a failed attempt is left: its tensors were replaced or it came to no commit, and its length was taken back. */
  predicate Untouched(m: Mark, placement: Placement) {
    (m.late == 0 || placement.Replaced?) && m.drift == 0
  }

  /** The rows whose streams are vouched for came through the step untouched. */
  ghost predicate CleanRowsUntouched(rows: seq<Row>, trace: seq<Attempt>, states: RuntimeStates) {
    forall i :: 0 <= i < |rows| && rows[i].spec.clean && rows[i].spec.id in states ==>
      Untouched(Marks(trace, rows[i].spec.id), states[rows[i].spec.id].placement)
  }

  lemma AfterIff(base: RuntimeState, token: Token, late: nat, succeeded: bool)
    ensures After(base, token, late, succeeded).folded == base.folded + (if succeeded then [token] else [])
            <==> late == 0 || base.placement.Replaced?
  {
    CleanIff(base, token, late, succeeded);
    assert base.folded + [] == base.folded;
  }

  lemma RowMeets(
    sampler: Sampler, rows: seq<Row>, i: nat, trace: seq<Attempt>, successes: map<int, Token>, failures: map<int, Error>,
    allocations: Allocations, states: RuntimeStates, allocations': Allocations, states': RuntimeStates)
    requires UniqueRows(rows) && i < |rows| && Known(rows, allocations, states)
    requires Fared(BatchOf(rows, allocations, states), rows[i].spec.id, [], trace, sampler, successes, failures, allocations', states')
    ensures var row, id := rows[i], rows[i].spec.id;
            var before, after := Abstract(allocations, states), Abstract(allocations', states');
            && id in before && id in after && row.generated != []
            && (id in successes ==>
                  (Stepped(sampler, row, before[id], after[id], successes[id]) <==> Untouched(Marks(trace, id), states[id].placement)))
            && (id !in successes ==> (after[id] == before[id] <==> Untouched(Marks(trace, id), states[id].placement)))
  {
    var row, id := rows[i], rows[i].spec.id;
    assert [] + trace == trace;
    var token := TokenOf(row);
    AfterIff(states[id], token, Marks(trace, id).late, id in successes);
    hide Marks, After;
    assert states[id].folded + [] == states[id].folded;
  }

  /** A row's step is what the serving loop expects of it exactly if it came through untouched. */
  predicate RowAgrees(
    sampler: Sampler, row: Row, before: States, after: States, successes: map<int, Token>, failures: map<int, Error>, untouched: bool)
  {
    var id := row.spec.id;
    && id in before && id in after && row.generated != [] && (id in successes <==> id !in failures)
    && (id in successes ==> (Stepped(sampler, row, before[id], after[id], successes[id]) <==> untouched))
    && (id !in successes ==> (after[id] == before[id] <==> untouched))
  }

  lemma RowsDecide(
    sampler: Sampler, rows: seq<Row>, before: States, after: States, outcome: Outcome, successes: map<int, Token>, failures: map<int, Error>,
    touched: set<int>)
    requires forall id :: id in before && id !in Ids(rows) ==> id in after && after[id] == before[id]
    requires forall i :: 0 <= i < |rows| ==> RowAgrees(sampler, rows[i], before, after, successes, failures, rows[i].spec.id !in touched)
    requires outcome.PartialDecode? ==> Covers(ReplyOf(outcome), rows) && successes == outcome.successes
    requires outcome.Decoded? ==>
               && |outcome.tokens| == |rows|
               && forall i :: 0 <= i < |rows| ==> rows[i].spec.id in successes && successes[rows[i].spec.id] == outcome.tokens[i]
    ensures DecodeMeets(sampler, rows, before, after, ReplyOf(outcome))
            <==> forall i :: 0 <= i < |rows| && rows[i].spec.clean ==> rows[i].spec.id !in touched
  {
    hide Covers, Stepped;
    var reply := ReplyOf(outcome);
    forall i | 0 <= i < |rows|
      ensures RowAgrees(sampler, rows[i], before, after, successes, failures, rows[i].spec.id !in touched)
      ensures reply.Tokens? ==> (Advanced(sampler, rows[i], before, after, reply.tokens[i]) <==> (rows[i].spec.clean ==> rows[i].spec.id !in touched))
      ensures reply.Partial? && rows[i].spec.id in reply.samples ==>
                (Advanced(sampler, rows[i], before, after, reply.samples[rows[i].spec.id]) <==> (rows[i].spec.clean ==> rows[i].spec.id !in touched))
      ensures reply.Partial? && rows[i].spec.id !in reply.samples ==>
                (Stayed(rows[i], before, after) <==> (rows[i].spec.clean ==> rows[i].spec.id !in touched))
    {
    }
    hide Advanced, Stayed, RowAgrees;
  }

  /**
   The decode call of the worker does what the serving loop relies on if and only if
   no clean row was in an attempt whose trace the rollback left behind.
   */
  lemma MeetsIff(
    sampler: Sampler, rows: seq<Row>, trace: seq<Attempt>, outcome: Outcome,
    allocations: Allocations, states: RuntimeStates, allocations': Allocations, states': RuntimeStates)
    requires UniqueRows(rows) && Known(rows, allocations, states)
    requires Ended(BatchOf(rows, allocations, states), RowIds(rows), trace, sampler, outcome, allocations', states')
    requires OnlyGroup(RowIds(rows), allocations, allocations', states, states')
    ensures DecodeMeets(sampler, rows, Abstract(allocations, states), Abstract(allocations', states'), ReplyOf(outcome))
            <==> CleanRowsUntouched(rows, trace, states)
  {
    var before, after := Abstract(allocations, states), Abstract(allocations', states');
    var ids, batch := RowIds(rows), BatchOf(rows, allocations, states);
    var successes, failures := Successes(ids, outcome), Failures(outcome);
    hide Fared, Untouched, Stepped, Marks, DecodeMeets, BatchOf;
    var touched := set i | 0 <= i < |rows| && !Untouched(Marks(trace, rows[i].spec.id), states[rows[i].spec.id].placement) :: rows[i].spec.id;
    forall id | id in before && id !in Ids(rows) ensures id in after && after[id] == before[id] {
      assert id !in ids;
    }
    forall i | 0 <= i < |rows|
      ensures RowAgrees(sampler, rows[i], before, after, successes, failures, rows[i].spec.id !in touched)
      ensures rows[i].spec.id !in touched <==> Untouched(Marks(trace, rows[i].spec.id), states[rows[i].spec.id].placement)
    {
      var id := ids[i];
      assert id in ids && Fared(batch, id, [], trace, sampler, successes, failures, allocations', states');
      RowMeets(sampler, rows, i, trace, successes, failures, allocations, states, allocations', states');
      DecidedOnce(batch, id, trace, sampler, successes, failures, allocations', states');
    }
    hide RowAgrees, Known;
    DecidedByAll(rows, sampler, before, after, successes, failures, touched);
    RepliesToAll(rows, outcome, successes, failures);
    RowsDecide(sampler, rows, before, after, outcome, successes, failures, touched);
  }

  lemma DecidedByAll(
    rows: seq<Row>, sampler: Sampler, before: States, after: States, successes: map<int, Token>, failures: map<int, Error>, touched: set<int>)
    requires forall i :: 0 <= i < |rows| ==> RowAgrees(sampler, rows[i], before, after, successes, failures, rows[i].spec.id !in touched)
    ensures forall i :: 0 <= i < |rows| ==> (rows[i].spec.id in successes <==> rows[i].spec.id !in failures)
  {
  }

  lemma DecidedOnce(
    batch: Batch, id: int, trace: seq<Attempt>, sampler: Sampler, successes: map<int, Token>, failures: map<int, Error>,
    allocations: Allocations, states: RuntimeStates)
    requires Fared(batch, id, [], trace, sampler, successes, failures, allocations, states)
    ensures id in successes <==> id !in failures
  {
  }

  /** A reply names every row once. */
  lemma RepliesToAll(rows: seq<Row>, outcome: Outcome, successes: map<int, Token>, failures: map<int, Error>)
    requires Distinct(RowIds(rows)) && (outcome.Decoded? ==> |outcome.tokens| == |rows|)
    requires successes == Successes(RowIds(rows), outcome) && failures == Failures(outcome)
    requires successes.Keys + failures.Keys == set id | id in RowIds(rows)
    requires forall i :: 0 <= i < |rows| ==> (rows[i].spec.id in successes <==> rows[i].spec.id !in failures)
    ensures outcome.PartialDecode? ==> Covers(ReplyOf(outcome), rows)
    ensures outcome.Decoded? ==> forall i :: 0 <= i < |rows| ==> rows[i].spec.id in successes && successes[rows[i].spec.id] == outcome.tokens[i]
  {
    var ids := RowIds(rows);
    if outcome.Decoded? {
      forall i | 0 <= i < |rows| ensures rows[i].spec.id in successes && successes[rows[i].spec.id] == outcome.tokens[i] {
        assert ids[i] == rows[i].spec.id;
      }
    } else {
      forall id ensures id in ids <==> id in Ids(rows) {
        if id in Ids(rows) {
          var i :| 0 <= i < |rows| && rows[i].spec.id == id;
          assert ids[i] == id;
        }
      }
      assert successes.Keys + failures.Keys == Ids(rows);
      forall id | id in successes ensures id !in failures {
        assert id in Ids(rows);
      }
    }
  }

  /** Whatever the runtime does to its calls, it leaves no trace in this request. */
  ghost predicate Traceless(faults: Faults, placement: Placement, id: int) {
    forall n: nat, ids: seq<int> :: id in ids ==> !faults(n, ids).Unbuilt? && (faults(n, ids).AfterCommit? ==> placement.Replaced?)
  }

  lemma TracelessIsUntouched(faults: Faults, n: nat, trace: seq<Attempt>, n': nat, placement: Placement, id: int)
    requires Recorded(faults, n, trace, n') && Traceless(faults, placement, id)
    ensures Untouched(Marks(trace, id), placement)
  {
    MarksAre(trace, id);
    forall a | a in trace && a.Reached? && id in a.ids ensures !a.fault.Unbuilt? && (a.fault.AfterCommit? ==> placement.Replaced?) {
      var call := RecordedAnswers(faults, n, trace, n', a);
    }
  }

  // ----- the pages of a decode batch

  /** A batch of requests that were admitted for their longest answer, and go on. */
  predicate AllHoused(rows: seq<Row>, eos: Option<Token>, allocations: Allocations) {
    forall i :: 0 <= i < |rows| ==>
      && rows[i].spec.id in allocations && Housed(rows[i].spec, rows[i].generated, allocations[rows[i].spec.id])
      && FinishReason(rows[i].spec, eos, rows[i].generated).None?
  }

  ghost predicate AllBuilt(rows: seq<Row>, trace: seq<Attempt>) {
    forall i :: 0 <= i < |rows| ==> Marks(trace, rows[i].spec.id).unbuilt == 0
  }

  /** A housed batch never lacks a page. */
  lemma HousedHasRoom(rows: seq<Row>, eos: Option<Token>, trace: seq<Attempt>, allocations: Allocations, states: RuntimeStates)
    requires UniqueRows(rows) && AllHoused(rows, eos, allocations) && AllBuilt(rows, trace)
    ensures AllRoomy(BatchOf(rows, allocations, states), RowIds(rows), trace)
  {
    hide Marks;
    forall id | id in RowIds(rows) ensures id in allocations && Roomy(allocations[id]) && Marks(trace, id).unbuilt == 0 {
      var i :| 0 <= i < |rows| && rows[i].spec.id == id;
      NextStepIsReserved(rows[i].spec, eos, rows[i].generated);
    }
  }

  /**
   A step leaves a housed request housed: on the same pages and the same reservation, one
   token longer with its new token, or where it was.
   */
  lemma HousedStep(
    rows: seq<Row>, i: nat, eos: Option<Token>, trace: seq<Attempt>, sampler: Sampler, outcome: Outcome,
    allocations: Allocations, states: RuntimeStates, allocations': Allocations, states': RuntimeStates)
    requires UniqueRows(rows) && AllHoused(rows, eos, allocations) && AllBuilt(rows, trace) && Known(rows, allocations, states) && i < |rows|
    requires Ended(BatchOf(rows, allocations, states), RowIds(rows), trace, sampler, outcome, allocations', states')
    ensures StillHoused(rows[i], Successes(RowIds(rows), outcome), allocations, allocations')
  {
    var row, id, ids := rows[i], rows[i].spec.id, RowIds(rows);
    var batch, successes, failures := BatchOf(rows, allocations, states), Successes(ids, outcome), Failures(outcome);
    assert id == ids[i];
    assert Fared(batch, id, [], trace, sampler, successes, failures, allocations', states') by {
      hide Fared;
    }
    FaredHoused(rows, i, eos, trace, sampler, successes, failures, allocations, states, allocations', states');
  }

  /** One token longer on the same pages, or where it was. */
  ghost predicate StillHoused(row: Row, successes: map<int, Token>, before: Allocations, after: Allocations) {
    var id := row.spec.id;
    && id in before && id in after
    && (id in successes ==>
          && after[id] == before[id].(numTokens := before[id].numTokens + 1)
          && Housed(row.spec, row.generated + [successes[id]], after[id]))
    && (id !in successes ==> after[id] == before[id] && Housed(row.spec, row.generated, after[id]))
  }

  lemma FaredHoused(
    rows: seq<Row>, i: nat, eos: Option<Token>, trace: seq<Attempt>, sampler: Sampler, successes: map<int, Token>, failures: map<int, Error>,
    allocations: Allocations, states: RuntimeStates, allocations': Allocations, states': RuntimeStates)
    requires UniqueRows(rows) && AllHoused(rows, eos, allocations) && AllBuilt(rows, trace) && i < |rows|
    requires Fared(BatchOf(rows, allocations, states), rows[i].spec.id, [], trace, sampler, successes, failures, allocations', states')
    ensures StillHoused(rows[i], successes, allocations, allocations')
  {
    var row, id := rows[i], rows[i].spec.id;
    assert [] + trace == trace;
    hide Marks, Standing, FinishReason;
    HousedNext(row.spec, row.generated, eos, allocations[id], states[id], Marks(trace, id), id in successes, allocations'[id], states'[id]);
  }

  lemma HousedNext(
    spec: Spec, g: seq<Token>, eos: Option<Token>, base: BlockAllocation, checkpoint: RuntimeState, m: Mark, succeeded: bool,
    a: BlockAllocation, s: RuntimeState)
    requires Housed(spec, g, base) && FinishReason(spec, eos, g).None? && m.unbuilt == 0
    requires Standing(base, checkpoint, g[|g| - 1], m, succeeded, a, s)
    ensures a == base.(numTokens := base.numTokens + if succeeded then 1 else 0)
    ensures succeeded ==> forall token :: Housed(spec, g + [token], a)
    ensures !succeeded ==> a == base
  {
    NextStepIsReserved(spec, eos, g);
    hide After;
  }

  /** Nobody else's state is touched. */
  lemma AbstractUpdate(before: Allocations, was: RuntimeStates, after: Allocations, now: RuntimeStates, id: int)
    requires forall x :: x != id ==> (x in before <==> x in after) && (x in before ==> before[x] == after[x])
    requires forall x :: x != id ==> (x in was <==> x in now) && (x in was ==> was[x] == now[x])
    ensures id in after && id in now ==> Abstract(after, now) == Abstract(before, was)[id := Kept(now[id].folded, after[id].numTokens)]
    ensures id !in after || id !in now ==> Abstract(after, now) == Abstract(before, was) - {id}
  {
    var earlier, later := Abstract(before, was), Abstract(after, now);
    forall x ensures x in later <==> if x == id then id in after && id in now else x in earlier {
      assert x != id ==> (x in before <==> x in after) && (x in was <==> x in now);
    }
    if id in after && id in now {
      var expected := earlier[id := Kept(now[id].folded, after[id].numTokens)];
      assert later.Keys == expected.Keys;
      forall x | x in later ensures later[x] == expected[x] {
        assert x != id ==> x in before && x in was;
      }
    } else {
      assert later.Keys == (earlier - {id}).Keys;
      forall x | x in later ensures later[x] == (earlier - {id})[x] {
        assert x != id ==> x in before && x in was;
      }
    }
  }

  lemma AbstractKeeps(before: Allocations, states: RuntimeStates, after: Allocations, id: int)
    requires forall x :: x != id ==> (x in before <==> x in after) && (x in before ==> before[x] == after[x])
    requires id !in states || after == before
    ensures Abstract(after, states) == Abstract(before, states)
  {
    if id !in states {
      AbstractUpdate(before, states, after, states, id);
    }
  }

  lemma WithoutOne(before: set<int>, after: set<int>, id: int)
    requires id !in after && forall x :: x != id ==> (x in before <==> x in after)
    ensures after == before - {id}
  {
    forall x ensures x in after <==> x in before - {id} {
      assert x != id ==> (x in before <==> x in after);
    }
  }

  /** A request without pages, or without a state, is not seen. */
  lemma Unseen(allocations: Allocations, states: RuntimeStates, id: int)
    requires id !in allocations || id !in states
    ensures Abstract(allocations, states) - {id} == Abstract(allocations, states)
  {
  }

  lemma KeptPlacements(
    rows: seq<Row>, trace: seq<Attempt>, sampler: Sampler, outcome: Outcome, placement: Placement,
    allocations: Allocations, states: RuntimeStates, allocations': Allocations, states': RuntimeStates)
    requires UniqueRows(rows) && Known(rows, allocations, states)
    requires Ended(BatchOf(rows, allocations, states), RowIds(rows), trace, sampler, outcome, allocations', states')
    requires OnlyGroup(RowIds(rows), allocations, allocations', states, states')
    requires forall id :: id in states ==> states[id].placement == placement
    ensures forall id :: id in states' ==> states'[id].placement == placement
  {
    var batch, ids := BatchOf(rows, allocations, states), RowIds(rows);
    assert batch.checkpoints == states;
    hide Marks, BatchOf, Known;
    forall id | id in states' ensures states'[id].placement == placement {
      if id in ids {
        assert Fared(batch, id, [], trace, sampler, Successes(ids, outcome), Failures(outcome), allocations', states') by {
          hide Fared;
        }
        PlacementStays(batch, id, trace, sampler, Successes(ids, outcome), Failures(outcome), allocations', states');
      }
    }
  }

  lemma PlacementStays(
    batch: Batch, id: int, trace: seq<Attempt>, sampler: Sampler, successes: map<int, Token>, failures: map<int, Error>,
    allocations: Allocations, states: RuntimeStates)
    requires Fared(batch, id, [], trace, sampler, successes, failures, allocations, states)
    ensures id in states && id in batch.checkpoints && states[id].placement == batch.checkpoints[id].placement
  {
    hide Marks;
  }

  /** The rows the runtime leaves no trace in are untouched. */
  lemma TracelessRows(
    faults: Faults, n: nat, trace: seq<Attempt>, n': nat, placement: Placement, rows: seq<Row>, states: RuntimeStates)
    requires Recorded(faults, n, trace, n') && forall id :: id in states ==> states[id].placement == placement
    requires forall i :: 0 <= i < |rows| && rows[i].spec.clean ==> Traceless(faults, placement, rows[i].spec.id)
    ensures CleanRowsUntouched(rows, trace, states)
  {
    hide Recorded, Traceless, Untouched;
    forall i | 0 <= i < |rows| && rows[i].spec.clean && rows[i].spec.id in states
      ensures Untouched(Marks(trace, rows[i].spec.id), states[rows[i].spec.id].placement)
    {
      TracelessIsUntouched(faults, n, trace, n', placement, rows[i].spec.id);
    }
  }

  lemma HousedAtFirst(spec: Spec, a: BlockAllocation)
    requires forall token :: Housed(spec, [token], a)
    ensures a.numTokens == |spec.prompt|
  {
    assert Housed(spec, [0], a);
  }

  /** A housed batch whose planned attempts are all built makes just these. */
  lemma PlanIsMade(
    rows: seq<Row>, eos: Option<Token>, plan: seq<Attempt>, trace: seq<Attempt>, allocations: Allocations, states: RuntimeStates)
    requires UniqueRows(rows) && AllHoused(rows, eos, allocations)
    requires Planned(BatchOf(rows, allocations, states), RowIds(rows), [], plan, trace)
    ensures AllBuilt(rows, plan) ==> trace == plan
  {
    hide AllHoused, AllBuilt, AllRoomy;
    if AllBuilt(rows, plan) {
      HousedHasRoom(rows, eos, plan, allocations, states);
      assert [] + plan == plan;
    }
  }

  class Worker {
    const desk: AdmissionDesk
    const engine: RuntimeGenerationBackend
    /** Where the stepped states of this runtime go. */
    const placement: Placement

    ghost predicate Valid()
      reads this, desk, desk.manager, engine
    {
      && desk.Valid() && desk.Paired() && engine.manager == desk.manager
      && engine.states.Keys <= desk.slots && forall id :: id in engine.states ==> engine.states[id].placement == placement
    }

    constructor (desk: AdmissionDesk, faults: Faults, sampler: Sampler, placement: Placement)
      requires desk.Valid() && desk.Paired() && desk.slots == {}
      ensures Valid() && this.desk == desk && this.placement == placement && fresh(engine)
      ensures engine.faults == faults && engine.sampler == sampler && States() == map[]
    {
      this.desk, this.placement := desk, placement;
      engine := new RuntimeGenerationBackend(desk.manager, faults, sampler, map[]);
    }

    function States(): States
      reads this, desk, desk.manager, engine
    {
      Abstract(desk.manager.allocations, engine.states)
    }

    /** The requests that hold pages and a state slot. */
    function Reserved(): set<int>
      reads this, desk
    {
      desk.slots
    }

    /** Whoever holds pages holds a slot. */
    lemma Holders()
      requires Valid()
      ensures desk.manager.allocations.Keys == Reserved()
    {
    }

    /** An accepted request is housed from its first token on. */
    method Admit(spec: Spec) returns (d: Decision)
      requires Valid()
      modifies desk, desk.manager
      ensures Valid() && States() == old(States())
      ensures Reserved() == old(Reserved()) + if d.Accept? then {spec.id} else {}
      ensures d.Accept? ==> spec.id in desk.manager.allocations && forall token :: Housed(spec, [token], desk.manager.allocations[spec.id])
    {
      hide Abstract, Consistent, Housed, TotalKvTokens;
      ghost var before := desk.manager.allocations;
      var r := desk.Admit(spec);
      d := r.value;
      AbstractKeeps(before, engine.states, desk.manager.allocations, spec.id);
    }

    /** Gives pages, slot and state back; preempting a request is the same. */
    method Release(id: int)
      requires Valid()
      modifies desk, desk.manager, engine`states
      ensures Valid() && States() == old(States()) - {id} && Reserved() == old(Reserved()) - {id}
    {
      hide Abstract, Consistent;
      ghost var before, was, slots := desk.manager.allocations, engine.states, desk.slots;
      engine.states := engine.states - {id};
      desk.Release(id);
      AbstractUpdate(before, was, desk.manager.allocations, engine.states, id);
      WithoutOne(slots, desk.slots, id);
    }

    /** The runtime folds these tokens into a fresh state; when it fails everything is given back. */
    method Compute(id: int, tokens: seq<Token>) returns (ok: bool)
      requires Valid() && id in desk.manager.allocations && desk.manager.allocations[id].numTokens == |tokens|
      modifies desk, desk.manager, engine`states
      ensures Valid()
      ensures ok ==> States() == old(States())[id := Kept(tokens, |tokens|)] && Reserved() == old(Reserved())
      ensures ok ==> desk.manager.allocations == old(desk.manager.allocations)
      ensures !ok ==> States() == old(States()) - {id} && Reserved() == old(Reserved()) - {id}
    {
      hide Abstract, Consistent;
      ok := *;
      if !ok {
        Release(id);
        return;
      }
      ghost var was := engine.states;
      engine.states := engine.states[id := RuntimeState(|tokens|, tokens, placement)];
      AbstractUpdate(desk.manager.allocations, was, desk.manager.allocations, engine.states, id);
    }

    /** Admits a request that was not, and computes its first token; when it fails everything is given back. */
    method Prefill(spec: Spec) returns (r: Result<Token>)
      requires Valid()
      requires spec.id in desk.manager.allocations ==> desk.manager.allocations[spec.id].numTokens == |spec.prompt|
      modifies desk, desk.manager, engine`states
      ensures Valid()
      ensures r.Ok? ==>
                && r.value == engine.sampler(spec.id, spec.prompt, spec.prompt, 0)
                && States() == old(States())[spec.id := Kept(spec.prompt, |spec.prompt|)] && Reserved() == old(Reserved()) + {spec.id}
      ensures r.Err? ==> States() == old(States()) - {spec.id} && Reserved() == old(Reserved()) - {spec.id}
    {
      hide Abstract, Consistent, Housed, Worker.Valid;
      Holders();
      if spec.id !in desk.manager.allocations {
        Unseen(desk.manager.allocations, engine.states, spec.id);
        var d := Admit(spec);
        if !d.Accept? {
          return Err(MemoryError);
        }
        Holders();
        HousedAtFirst(spec, desk.manager.allocations[spec.id]);
      }
      var ok := Compute(spec.id, spec.prompt);
      if !ok {
        return Err(RuntimeError);
      }
      r := Ok(engine.sampler(spec.id, spec.prompt, spec.prompt, 0));
    }

    /**
     Recomputes the state of a request that was set aside. When it is not taken back it
     holds nothing, unless it already held pages of another size.
     */
    method Recover(spec: Spec, g: seq<Token>) returns (r: Result<Decision>)
      requires Valid() && g != []
      modifies desk, desk.manager, engine`states
      ensures Valid()
      ensures r == Ok(Accept) ==>
                && States() == old(States())[spec.id := Exactly(spec, g)] && Reserved() == old(Reserved()) + {spec.id}
                && spec.id in desk.manager.allocations && Housed(spec, g, desk.manager.allocations[spec.id])
      ensures r.Err? || (r != Ok(Accept) && spec.id !in old(Reserved())) ==>
                States() == old(States()) - {spec.id} && Reserved() == old(Reserved()) - {spec.id}
      ensures r.Ok? && r != Ok(Accept) && spec.id in old(Reserved()) ==> States() == old(States()) && Reserved() == old(Reserved())
    {
      hide Abstract, Consistent;
      ghost var before := desk.manager.allocations;
      r := desk.Readmit(spec, g);
      AbstractKeeps(before, engine.states, desk.manager.allocations, spec.id);
      if r != Ok(Accept) {
        if spec.id !in old(Reserved()) {
          Unseen(before, engine.states, spec.id);
        }
        return;
      }
      var ok := Compute(spec.id, Replay(spec, g));
      if !ok {
        return Err(RuntimeError);
      }
    }

    /**
     One decode call. It keeps the serving loop's contract exactly when no clean row was
     touched by a failed attempt, so always when the runtime leaves no trace in clean rows.
     A batch of housed requests whose inputs are all built never lacks a page, and stays
     housed on the pages it has. Its attempts, and so whether the contract is kept, follow
     from the runtime's answers alone and can be told before the call.
     */
    method Decode(rows: seq<Row>, ghost eos: Option<Token>) returns (outcome: Outcome)
      requires Valid() && UniqueRows(rows)
      requires forall i :: 0 <= i < |rows| ==> rows[i].generated != [] && rows[i].spec.id in States()
      modifies desk.manager, engine
      ensures Valid() && Reserved() == old(Reserved())
      ensures DecodeMeets(engine.sampler, rows, old(States()), States(), ReplyOf(outcome))
              <==> CleanRowsUntouched(rows, engine.trace, old(engine.states))
      ensures (forall i :: 0 <= i < |rows| && rows[i].spec.clean ==> Traceless(engine.faults, placement, rows[i].spec.id))
              ==> DecodeMeets(engine.sampler, rows, old(States()), States(), ReplyOf(outcome))
      ensures rows != [] && AllHoused(rows, eos, old(desk.manager.allocations)) ==>
                var plan := StepAttempts(engine.faults, old(engine.runtimeCalls), RowIds(rows));
                AllBuilt(rows, plan) ==>
                  && engine.trace == plan
                  && (DecodeMeets(engine.sampler, rows, old(States()), States(), ReplyOf(outcome))
                      <==> CleanRowsUntouched(rows, plan, old(engine.states)))
      ensures AllHoused(rows, eos, old(desk.manager.allocations)) && AllBuilt(rows, engine.trace) ==>
                && RoomForAll(engine.trace)
                && (rows != [] ==> engine.trace == StepAttempts(engine.faults, old(engine.runtimeCalls), RowIds(rows)))
                && Distinct(RowIds(rows)) && (outcome.Decoded? ==> |outcome.tokens| == |rows|)
                && forall i :: 0 <= i < |rows| ==>
                     StillHoused(rows[i], Successes(RowIds(rows), outcome), old(desk.manager.allocations), desk.manager.allocations)
    {
      hide Consistent, Abstract, Ended, Recorded, DecodeMeets, CleanRowsUntouched, AllHoused, AllBuilt, AllRoomy, RoomForAll, StepAttempts;
      hide Traceless, StillHoused, UniqueRows, RowIds, BatchOf, Marks, Planned;
      ghost var before, was, calls := desk.manager.allocations, engine.states, engine.runtimeCalls;
      SeenIsKnown(rows, before, was);
      var r := engine.Decode(rows);
      outcome := r.value;
      ghost var after, now, trace := desk.manager.allocations, engine.states, engine.trace;
      KeptPlacements(rows, trace, engine.sampler, outcome, placement, before, was, after, now);
      MeetsIff(engine.sampler, rows, trace, outcome, before, was, after, now);
      if forall i :: 0 <= i < |rows| && rows[i].spec.clean ==> Traceless(engine.faults, placement, rows[i].spec.id) {
        TracelessRows(engine.faults, calls, trace, engine.runtimeCalls, placement, rows, was);
      }
      EndedCounts(rows, trace, engine.sampler, outcome, before, was, after, now);
      if rows != [] && AllHoused(rows, eos, before) {
        PlanIsMade(rows, eos, StepAttempts(engine.faults, calls, RowIds(rows)), trace, before, was);
      }
      if AllHoused(rows, eos, before) && AllBuilt(rows, trace) {
        HousedHasRoom(rows, eos, trace, before, was);
        forall i | 0 <= i < |rows| ensures StillHoused(rows[i], Successes(RowIds(rows), outcome), before, after) {
          HousedStep(rows, i, eos, trace, engine.sampler, outcome, before, was, after, now);
        }
      }
    }
  }

  lemma SeenIsKnown(rows: seq<Row>, allocations: Allocations, states: RuntimeStates)
    requires forall i :: 0 <= i < |rows| ==> rows[i].spec.id in Abstract(allocations, states)
    ensures Known(rows, allocations, states)
  {
  }

  lemma EndedCounts(
    rows: seq<Row>, trace: seq<Attempt>, sampler: Sampler, outcome: Outcome,
    allocations: Allocations, states: RuntimeStates, allocations': Allocations, states': RuntimeStates)
    requires UniqueRows(rows)
    requires Ended(BatchOf(rows, allocations, states), RowIds(rows), trace, sampler, outcome, allocations', states')
    ensures Distinct(RowIds(rows)) && |RowIds(rows)| == |rows| && (outcome.Decoded? ==> |outcome.tokens| == |rows|)
  {
    hide Resolved, BatchOf;
  }
}
