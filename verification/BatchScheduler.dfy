/**
 The iteration-level scheduler: chunked prefill under a token budget, one in-flight
 decode batch, preemption and recovery, over the page allocator.
 */
module BatchScheduler {
  import opened Basics
  import opened BlockManager
  import opened Queues

  type Token = int

  datatype RequestState =
    Waiting | PrefillRunning | TransferPending | Ready | Running | Preempted | Recovering | Finished | Failed

  /** The states a request may move to. */
  function Transitions(s: RequestState): set<RequestState> {
    match s
    case Waiting => {PrefillRunning, Failed}
    case PrefillRunning => {TransferPending, Ready, Failed}
    case TransferPending => {Ready, Failed}
    case Ready => {Running, Failed}
    case Running => {Preempted, Finished, Failed}
    case Preempted => {Recovering, Failed}
    case Recovering => {Ready, Preempted, Failed}
    case Finished => {}
    case Failed => {}
  }

  /** A request stays in its state, or goes on as it may. */
  predicate Lawful(s: RequestState, t: RequestState) {
    s == t || t in Transitions(s)
  }

  /** How each state is reached: the table read backwards. What is over stays over, and everything else may fail. */
  lemma ReachedFrom(s: RequestState, t: RequestState)
    requires t in Transitions(s)
    ensures !s.Finished? && !s.Failed? && !t.Waiting? && s != t
    ensures t.PrefillRunning? ==> s.Waiting?
    ensures t.TransferPending? ==> s.PrefillRunning?
    ensures t.Ready? ==> s.PrefillRunning? || s.TransferPending? || s.Recovering?
    ensures t.Running? ==> s.Ready?
    ensures t.Preempted? ==> s.Running? || s.Recovering?
    ensures t.Recovering? ==> s.Preempted?
    ensures t.Finished? ==> s.Running?
    ensures forall u :: Failed in Transitions(u) <==> !u.Finished? && !u.Failed?
  {
  }

  /**
   A request and how much of its prompt was scheduled. `seeded` records that its first
   token came from its prefill; no decision reads it.
   */
  datatype Request = Request(
    prompt: seq<Token>, maxNewTokens: nat, state: RequestState, generated: seq<Token>, offset: nat, seeded: bool)

  type Requests = map<int, Request>

  datatype PrefillBatchItem = PrefillBatchItem(id: int, start: nat, end: nat)

  datatype DecodeBatch = DecodeBatch(ids: seq<int>, tokens: seq<Token>)

  datatype RecoveryPlan = RecoveryPlan(id: int, replay: seq<Token>, generated: seq<Token>)

  /** Where the scheduler keeps a request: which queue, if any. */
  datatype Place = Prompting | Prompted | Transferring | Readied | Decoding | Displaced | Recomputing | Done

  function PlaceOf(q: Request): Place {
    match q.state
    case Waiting => Prompting
    case PrefillRunning => if q.offset < |q.prompt| then Prompting else Prompted
    case TransferPending => Transferring
    case Ready => Readied
    case Running => Decoding
    case Preempted => Displaced
    case Recovering => Recomputing
    case Finished => Done
    case Failed => Done
  }

  function Places(requests: Requests): map<int, Place> {
    map id | id in requests :: PlaceOf(requests[id])
  }

  lemma PlacesUpdate(requests: Requests, id: int, q: Request)
    ensures Places(requests[id := q]) == Places(requests)[id := PlaceOf(q)]
  {
  }

  predicate Holding(s: RequestState) {
    !s.Preempted? && !s.Finished? && !s.Failed?
  }

  /** Each queue holds exactly the requests of its state, once each. */
  ghost predicate Listed(requests: Requests, waiting: seq<int>, ready: seq<int>, running: seq<int>, preempted: seq<int>) {
    && At(Places(requests), waiting, Prompting)
    && At(Places(requests), ready, Readied)
    && At(Places(requests), running, Decoding)
    && At(Places(requests), preempted, Displaced)
  }

  /** The tokens a request's pages must cover in the end. */
  function TotalTokens(q: Request): nat {
    |q.prompt| + Max(0, q.maxNewTokens - 1)
  }

  /** The length of a request that lags this far behind its tokens. */
  function Length(q: Request, lag: int): int {
    |q.prompt| + |q.generated| - lag
  }

  function LagOf(lags: map<int, int>, id: int): Option<int> {
    if id in lags then Some(lags[id]) else None
  }

  /** The tokens a request ends with: what it asked for, but one at least, and two at least after a seed. */
  function Due(q: Request): nat {
    Max(q.maxNewTokens, if q.seeded then 2 else 1)
  }

  /**
   Prompts are scheduled from the front, and whole before anything else happens. Whoever
   goes on has a token to go, or none but its seed, and whoever has finished has its due.
   */
  predicate WellFormed(q: Request) {
    && q.prompt != []
    && q.offset <= |q.prompt|
    && (q.state.Waiting? ==> q.offset == 0)
    && (!q.state.Waiting? && !q.state.PrefillRunning? && !PlaceOf(q).Done? ==> q.offset == |q.prompt|)
    && (q.seeded ==> q.generated != [])
    && (!PlaceOf(q).Done? ==> |q.generated| < Due(q))
    && (q.state.Finished? ==> |q.generated| == Due(q))
  }

  /**
   A request holds pages exactly while it is neither preempted nor over, and then they
   are reserved to its end. Where its lag is known, it says how far its length is behind
   its tokens: one, if its first token came from its prefill.
   */
  ghost predicate RequestOk(q: Request, id: int, allocations: Allocations, lag: Option<int>, inflight: bool) {
    && WellFormed(q)
    && (id in allocations <==> Holding(q.state))
    && (Holding(q.state) ==> allocations[id].reservedTokens >= TotalTokens(q))
    && (lag.Some? ==> 0 <= lag.value <= 1)
    && (lag == Some(1) && !PlaceOf(q).Done? ==> q.generated != [])
    && (lag.Some? && Holding(q.state) ==> allocations[id].numTokens == Length(q, lag.value) + if inflight then 1 else 0)
  }

  ghost predicate RequestsOk(requests: Requests, allocations: Allocations, lags: map<int, int>, inflight: set<int>) {
    forall id :: id in requests ==> RequestOk(requests[id], id, allocations, LagOf(lags, id), id in inflight)
  }

  /** One request changed, and its allocation with it. */
  lemma OneChanged(
    requests: Requests, allocations: Allocations, lags: map<int, int>, inflight: set<int>,
    id: int, q: Request, allocations': Allocations, lags': map<int, int>)
    requires RequestsOk(requests, allocations, lags, inflight)
    requires RequestOk(q, id, allocations', LagOf(lags', id), id in inflight)
    requires forall x :: x != id ==> (x in allocations <==> x in allocations')
    requires forall x :: x != id && x in allocations && x in allocations' ==> allocations'[x] == allocations[x]
    requires forall x :: x != id ==> LagOf(lags, x) == LagOf(lags', x)
    ensures RequestsOk(requests[id := q], allocations', lags', inflight)
  {
  }

  /** What is in flight is running, or over. */
  ghost predicate Flying(requests: Requests, inflight: set<int>) {
    forall id :: id in inflight ==> id in requests && (PlaceOf(requests[id]).Decoding? || PlaceOf(requests[id]).Done?)
  }

  // ----- moving one request

  function Without(queue: seq<int>, id: int): (rest: seq<int>)
    ensures forall x :: x in rest <==> x in queue && x != id
    ensures Distinct(queue) ==> Distinct(rest)
    ensures |rest| <= |queue|
  {
    if queue == [] then []
    else
      var n := |queue| - 1;
      assert queue == queue[..n] + [queue[n]];
      var earlier, last := Without(queue[..n], id), queue[n];
      assert Distinct(queue) ==> last !in queue[..n];
      assert Distinct(queue) ==> Distinct(earlier) && last !in earlier;
      earlier + if last == id then [] else [last]
  }

  lemma {:induction false} WithoutHead(queue: seq<int>)
    requires queue != [] && Distinct(queue)
    ensures queue[1..] == Without(queue, queue[0])
  {
    var n := |queue| - 1;
    if n > 0 {
      WithoutHead(queue[..n]);
      assert queue[..n][1..] + [queue[n]] == queue[1..];
    } else {
      assert queue[..0] == [];
    }
  }

  lemma WithoutAbsent(queue: seq<int>, id: int)
    requires id !in queue
    ensures Without(queue, id) == queue
  {
    if queue != [] {
      var n := |queue| - 1;
      assert queue == queue[..n] + [queue[n]];
      WithoutAbsent(queue[..n], id);
    }
  }

  /** A queue after a request went from one place to another. */
  function Moved(queue: seq<int>, p: Place, id: int, from: Place, to: Place): seq<int> {
    if from == to then queue
    else if to == p then queue + [id]
    else if from == p then Without(queue, id)
    else queue
  }

  lemma AtMoved(places: map<int, Place>, queue: seq<int>, p: Place, id: int, to: Place)
    requires At(places, queue, p) && id in places
    ensures At(places[id := to], Moved(queue, p, id, places[id], to), p)
  {
  }

  /** Whatever the move, the queues follow it. */
  lemma ListedMoved(requests: Requests, waiting: seq<int>, ready: seq<int>, running: seq<int>, preempted: seq<int>, id: int, q: Request)
    requires Listed(requests, waiting, ready, running, preempted) && id in requests
    ensures var from, to := PlaceOf(requests[id]), PlaceOf(q);
            Listed(requests[id := q], Moved(waiting, Prompting, id, from, to), Moved(ready, Readied, id, from, to),
                   Moved(running, Decoding, id, from, to), Moved(preempted, Displaced, id, from, to))
  {
    hide At;
    PlacesUpdate(requests, id, q);
    var places, to := Places(requests), PlaceOf(q);
    AtMoved(places, waiting, Prompting, id, to);
    AtMoved(places, ready, Readied, id, to);
    AtMoved(places, running, Decoding, id, to);
    AtMoved(places, preempted, Displaced, id, to);
  }

  lemma ListedNew(requests: Requests, waiting: seq<int>, ready: seq<int>, running: seq<int>, preempted: seq<int>, id: int, q: Request)
    requires Listed(requests, waiting, ready, running, preempted) && id !in requests && PlaceOf(q).Prompting?
    ensures Listed(requests[id := q], waiting + [id], ready, running, preempted)
  {
    hide At;
    PlacesUpdate(requests, id, q);
    var places := Places(requests);
    AtAppend(places, waiting, Prompting, id);
    AtSame(places, ready, Readied, id, Prompting);
    AtSame(places, running, Decoding, id, Prompting);
    AtSame(places, preempted, Displaced, id, Prompting);
  }

  /** A request whose prompt is not done goes to the end of the line. */
  lemma ListedRotated(requests: Requests, waiting: seq<int>, ready: seq<int>, running: seq<int>, preempted: seq<int>)
    requires Listed(requests, waiting, ready, running, preempted) && waiting != []
    ensures Listed(requests, waiting[1..] + [waiting[0]], ready, running, preempted)
  {
    assert waiting == [waiting[0]] + waiting[1..];
  }

  class ContinuousBatchScheduler {
    const manager: KVBlockManager
    const maxDecodeSequences: nat
    const maxPrefillTokens: nat
    const prefillChunkSize: nat
    var requests: Requests
    var waiting: seq<int>
    var ready: seq<int>
    /** The running requests, in the order they started. */
    var running: seq<int>
    var preempted: seq<int>
    var inflight: Option<DecodeBatch>
    /** How far each request's length is behind its tokens, where that is known. */
    ghost var lags: map<int, int>

    ghost function InFlight(): set<int>
      reads this
    {
      if inflight.None? then {} else set id | id in inflight.value.ids
    }

    ghost predicate Books()
      reads this, manager
    {
      && manager.Valid()
      && Flying(requests, InFlight())
      && (inflight.Some? ==> Distinct(inflight.value.ids))
      && Listed(requests, waiting, ready, running, preempted)
      && |running| <= maxDecodeSequences
      && RequestsOk(requests, manager.allocations, lags, InFlight())
    }

    /** The in-flight batch is among the running requests. */
    ghost predicate FlightOk()
      reads this
    {
      inflight.Some? ==>
        && inflight.value.ids != [] && Distinct(inflight.value.ids)
        && |inflight.value.tokens| == |inflight.value.ids|
        && forall id :: id in inflight.value.ids ==> id in running
    }

    /** A request of the in-flight batch has failed in the meantime. */
    ghost predicate Wedged()
      reads this
    {
      inflight.Some? && exists id :: id in inflight.value.ids && id in requests && requests[id].state.Failed?
    }

    /** A step neither loses a running request of the in-flight batch nor revives a failed one. */
    twostate predicate Flows()
      reads this
    {
      (old(FlightOk()) ==> FlightOk()) && (old(Wedged()) ==> Wedged())
    }

    constructor (manager: KVBlockManager, maxDecodeSequences: nat, maxPrefillTokens: nat, prefillChunkSize: nat)
      requires manager.Valid() && maxDecodeSequences > 0 && maxPrefillTokens > 0 && prefillChunkSize > 0
      ensures Books() && requests == map[] && inflight == None
      ensures this.manager == manager && this.maxDecodeSequences == maxDecodeSequences
      ensures this.maxPrefillTokens == maxPrefillTokens && this.prefillChunkSize == prefillChunkSize
    {
      this.manager := manager;
      this.maxDecodeSequences := maxDecodeSequences;
      this.maxPrefillTokens := maxPrefillTokens;
      this.prefillChunkSize := prefillChunkSize;
      requests := map[];
      waiting, ready, running, preempted := [], [], [], [];
      inflight := None;
      lags := map[];
    }

    /** Changes one request and moves it between the queues. */
    method Move(id: int, q: Request)
      requires Listed(requests, waiting, ready, running, preempted) && id in requests
      requires Lawful(requests[id].state, q.state)
      modifies this`requests, this`waiting, this`ready, this`running, this`preempted
      ensures Listed(requests, waiting, ready, running, preempted)
      ensures requests == old(requests)[id := q]
      ensures id !in InFlight() ==> Flows()
      ensures var from, to := PlaceOf(old(requests)[id]), PlaceOf(q);
              && waiting == Moved(old(waiting), Prompting, id, from, to)
              && ready == Moved(old(ready), Readied, id, from, to)
              && running == Moved(old(running), Decoding, id, from, to)
              && preempted == Moved(old(preempted), Displaced, id, from, to)
    {
      hide Listed;
      ListedMoved(requests, waiting, ready, running, preempted, id, q);
      var from, to := PlaceOf(requests[id]), PlaceOf(q);
      waiting := Moved(waiting, Prompting, id, from, to);
      ready := Moved(ready, Readied, id, from, to);
      running := Moved(running, Decoding, id, from, to);
      preempted := Moved(preempted, Displaced, id, from, to);
      requests := requests[id := q];
    }

    method Add(id: int, q: Request) returns (r: Result<()>)
      requires Books() && q.prompt != [] && q.generated == [] && q.offset == 0 && !q.seeded
      modifies manager, this`requests, this`waiting, this`lags
      ensures Books() && Flows()
      ensures id in old(requests) || !q.state.Waiting? ==> r == Err(ValueError)
      ensures r.Err? ==> requests == old(requests) && waiting == old(waiting)
      ensures r.Ok? ==> requests == old(requests)[id := q] && waiting == old(waiting) + [id]
      ensures r.Ok? ==> id in manager.allocations && manager.allocations[id].reservedTokens >= TotalTokens(q)
      ensures r.Ok? && id !in old(manager.allocations) ==> LagOf(lags, id) == Some(0)
      ensures id !in old(requests) && q.state.Waiting? && id !in old(manager.allocations) ==>
                && (r.Ok? <==> BlocksRequired(|q.prompt| + Max(0, q.maxNewTokens - 1), manager.blockSize) <= old(manager.Allocatable()))
                && (r.Ok? ==> |manager.free| == |old(manager.free)| - BlocksRequired(|q.prompt| + Max(0, q.maxNewTokens - 1), manager.blockSize))
    {
      hide Listed, RequestsOk, Consistent, RequestOk, SameExternal, Holding;
      if id in requests {
        return Err(ValueError);
      }
      if !q.state.Waiting? {
        return Err(ValueError);
      }
      ghost var before := manager.allocations;
      r := Secure(id, q);
      if r.Err? {
        return;
      }
      ghost var lags' := if manager.allocations[id].numTokens == |q.prompt| then lags[id := 0] else lags - {id};
      FreshIsOk(q, id, manager.allocations, LagOf(lags', id));
      OneChanged(requests, before, lags, InFlight(), id, q, manager.allocations, lags');
      ListedNew(requests, waiting, ready, running, preempted, id, q);
      lags := lags';
      requests := requests[id := q];
      waiting := waiting + [id];
    }

    /** Gives a new request its pages, or extends those its prefill already reserved. */
    method Secure(id: int, q: Request) returns (r: Result<()>)
      requires manager.Valid()
      modifies manager
      ensures manager.Valid()
      ensures r.Err? ==> manager.allocations == old(manager.allocations)
      ensures r.Ok? ==> id in manager.allocations && manager.allocations[id].reservedTokens >= TotalTokens(q)
      ensures r.Ok? && id !in old(manager.allocations) ==> manager.allocations[id].numTokens == |q.prompt|
      ensures id !in old(manager.allocations) ==>
                && (r.Ok? <==> BlocksRequired(TotalTokens(q), manager.blockSize) <= old(manager.Allocatable()))
                && (r.Ok? ==> |manager.free| == |old(manager.free)| - BlocksRequired(TotalTokens(q), manager.blockSize))
      ensures forall x :: x != id ==> (x in manager.allocations <==> x in old(manager.allocations))
      ensures forall x :: x != id && x in old(manager.allocations) ==> manager.allocations[x] == old(manager.allocations)[x]
    {
      hide Consistent, SameExternal;
      var found := manager.Get(id);
      if found.Err? {
        var granted := manager.Allocate(id, |q.prompt|, Some(TotalTokens(q)), []);
        if granted.Err? {
          return Err(granted.error);
        }
      } else {
        var extended := manager.Reserve(id, TotalTokens(q));
        if extended.Err? {
          return Err(extended.error);
        }
      }
      r := Ok(());
    }

    /** One request that is not in flight changes, its pages do not. */
    method Shift(id: int, q: Request)
      requires Books() && id in requests && id !in InFlight() && Lawful(requests[id].state, q.state)
      requires RequestOk(q, id, manager.allocations, LagOf(lags, id), false)
      requires PlaceOf(q).Decoding? && !PlaceOf(requests[id]).Decoding? ==> |running| < maxDecodeSequences
      modifies this`requests, this`waiting, this`ready, this`running, this`preempted
      ensures Books() && Flows()
      ensures requests == old(requests)[id := q]
      ensures var from, to := PlaceOf(old(requests)[id]), PlaceOf(q);
              && waiting == Moved(old(waiting), Prompting, id, from, to)
              && ready == Moved(old(ready), Readied, id, from, to)
              && running == Moved(old(running), Decoding, id, from, to)
              && preempted == Moved(old(preempted), Displaced, id, from, to)
    {
      hide Listed, RequestsOk, Consistent, RequestOk, PlaceOf;
      OneChanged(requests, manager.allocations, lags, InFlight(), id, q, manager.allocations, lags);
      Move(id, q);
    }

    /** One request gives its pages back and leaves its queue; while in flight, only because it is over. */
    method Surrender(id: int, q: Request)
      requires Books() && id in requests
      requires q == requests[id].(state := q.state) && !Holding(q.state) && WellFormed(q)
      requires id in InFlight() || PlaceOf(requests[id]).Done? ==> PlaceOf(q).Done?
      requires Lawful(requests[id].state, q.state)
      modifies manager, this`requests, this`waiting, this`ready, this`running, this`preempted
      ensures Books()
      ensures id !in InFlight() ==> Flows()
      ensures old(Wedged()) ==> Wedged()
      ensures requests == old(requests)[id := q]
      ensures manager.allocations == old(manager.allocations) - {id} && |manager.free| >= |old(manager.free)|
      ensures var from, to := PlaceOf(old(requests)[id]), PlaceOf(q);
              && running == Moved(old(running), Decoding, id, from, to)
              && ready == Moved(old(ready), Readied, id, from, to)
              && preempted == Moved(old(preempted), Displaced, id, from, to)
    {
      hide Listed, RequestsOk, Consistent, SameExternal, Lists, RequestOk, WellFormed;
      ghost var before := manager.allocations;
      SurrenderedIsOk(requests, before, lags, InFlight(), id, q, before - {id});
      MovedShrinks(running, Decoding, id, PlaceOf(requests[id]), PlaceOf(q));
      manager.Free(id);
      OneChanged(requests, before, lags, InFlight(), id, q, manager.allocations, lags);
      Move(id, q);
    }

    lemma Lines()
      requires Books()
      ensures Distinct(waiting) && Distinct(ready) && Distinct(running) && Distinct(preempted)
      ensures forall id :: id in running ==> id in requests && requests[id].state.Running?
      ensures inflight.Some? ==> Distinct(inflight.value.ids)
      ensures |running| <= maxDecodeSequences
    {
      hide RequestsOk, Flying, Consistent;
      QueuesDistinct(requests, waiting, ready, running, preempted);
    }

    lemma Known(id: int)
      requires Books() && id in requests
      ensures WellFormed(requests[id]) && (requests[id].state.Running? <==> id in running)
    {
      hide Flying, Consistent;
      assert id in Places(requests) && Places(requests)[id] == PlaceOf(requests[id]);
      IsWellFormed(requests, manager.allocations, lags, InFlight(), id);
    }

    /**
     Whoever has finished has more tokens than it asked for, and whoever runs will have
     with its next one, if and only if it asked for none, or for one that its prefill had
     already brought.
     */
    lemma EndsTooLongIff(id: int, token: Token)
      requires Books() && id in requests
      ensures var q := requests[id];
              var tooLong := q.maxNewTokens == 0 || (q.seeded && q.maxNewTokens == 1);
              && (q.state.Finished? ==> (|q.generated| > q.maxNewTokens <==> tooLong))
              && (q.state.Running? ==> (|Extended(q, token).generated| > q.maxNewTokens <==> tooLong))
              && (q.state.Running? ==> (|q.generated| >= q.maxNewTokens <==> tooLong))
    {
      Known(id);
    }


    lemma RunningLength(id: int)
      requires Books() && id in running && id !in InFlight()
      ensures id in requests && id in manager.allocations
      ensures id in lags ==> manager.allocations[id].numTokens == Length(requests[id], lags[id])
    {
      hide Flying, Consistent;
      QueuesDistinct(requests, waiting, ready, running, preempted);
      assert RequestOk(requests[id], id, manager.allocations, LagOf(lags, id), id in InFlight());
    }

    lemma Heads()
      requires Books()
      ensures ready != [] ==>
                Distinct(ready) && var id := ready[0]; id in requests && requests[id].state.Ready? && WellFormed(requests[id])
      ensures running != [] ==>
                Distinct(running) && var id := running[0]; id in requests && requests[id].state.Running? && WellFormed(requests[id])
    {
      hide RequestsOk, Flying, Consistent, WellFormed;
      QueuesDistinct(requests, waiting, ready, running, preempted);
      if ready != [] {
        assert ready[0] in ready;
        Known(ready[0]);
      }
      if running != [] {
        assert running[0] in running;
        Known(running[0]);
      }
    }

    // ----- prefill

    /**
     The prefill items of one iteration, first come first served: each continues its
     prompt where it stopped, and together they stay within the token budget.
     */
    method NextPrefillBatch() returns (items: seq<PrefillBatchItem>)
      requires Books() && prefillChunkSize > 0
      modifies this`requests, this`waiting, this`ready, this`running, this`preempted
      ensures Books() && Flows()
      ensures |items| <= |old(waiting)| && Size(items) <= maxPrefillTokens
      ensures Continues(old(waiting), old(requests), requests, items, prefillChunkSize, maxPrefillTokens)
      ensures |items| < |old(waiting)| ==> Size(items) == maxPrefillTokens
    {
      hide Listed, RequestsOk, RequestOk, Consistent, Moved, Continues;
      var budget: nat := maxPrefillTokens;
      items := [];
      var visits := |waiting|;
      ghost var line := waiting;
      QueuesDistinct(requests, waiting, ready, running, preempted);
      ContinuesFrom(line, requests, prefillChunkSize, maxPrefillTokens);
      while |items| < visits && budget > 0
        invariant Books() && Flows()
        invariant |items| <= visits == |line|
        invariant Distinct(line) && line[|items|..] <= waiting
        invariant Size(items) + budget == maxPrefillTokens
        invariant Continues(line, old(requests), requests, items, prefillChunkSize, maxPrefillTokens)
        decreases visits - |items|
      {
        var i := |items|;
        assert waiting[0] == line[i..][0] == line[i];
        NotYet(line, i);
        ghost var now := requests;
        var item := PrefillHead(budget);
        ContinuesNext(line, old(requests), now, requests, items, prefillChunkSize, maxPrefillTokens, item);
        assert (items + [item])[..i] == items;
        items := items + [item];
        budget := budget - (item.end - item.start);
      }
    }

    /** Schedules the next chunk of the first waiting prompt. */
    method PrefillHead(budget: nat) returns (item: PrefillBatchItem)
      requires Books() && waiting != [] && budget > 0 && prefillChunkSize > 0
      modifies this`requests, this`waiting, this`ready, this`running, this`preempted
      ensures Books() && Flows()
      ensures var id := old(waiting)[0];
              && item.id == id && id in old(requests) && requests.Keys == old(requests).Keys
              && NextChunk(old(requests)[id], requests[id], item, prefillChunkSize, budget)
              && Lawful(old(requests)[id].state, requests[id].state)
              && requests == old(requests)[id := requests[id]]
      ensures old(waiting)[1..] <= waiting
    {
      hide RequestsOk, Consistent, At;
      var id := waiting[0];
      WaitingHead(requests, waiting, ready, running, preempted, manager.allocations, lags, InFlight());
      var q := requests[id];
      var start := q.offset;
      var size := Min(|q.prompt| - start, Min(prefillChunkSize, budget));
      var end := start + size;
      var q' := q.(state := PrefillRunning, offset := end);
      assert id !in InFlight();
      ChunkIsOk(q, q', id, manager.allocations, LagOf(lags, id));
      if end < |q.prompt| {
        OneChanged(requests, manager.allocations, lags, InFlight(), id, q', manager.allocations, lags);
        ListedMoved(requests, waiting, ready, running, preempted, id, q');
        ListedRotated(requests[id := q'], waiting, ready, running, preempted);
        requests := requests[id := q'];
        waiting := waiting[1..] + [id];
      } else {
        WithoutHead(waiting);
        Shift(id, q');
      }
      item := PrefillBatchItem(id, start, end);
    }

    /** A state change that touches neither pages nor tokens. */
    method Advance(id: int, target: RequestState)
      requires Books() && id in requests && id !in InFlight()
      requires Holding(requests[id].state) && Holding(target) && target in Transitions(requests[id].state)
      requires requests[id].offset == |requests[id].prompt|
      requires target.Running? ==> |running| < maxDecodeSequences
      modifies this`requests, this`waiting, this`ready, this`running, this`preempted
      ensures Books() && Flows()
      ensures requests == old(requests)[id := old(requests)[id].(state := target)]
      ensures var from, to := PlaceOf(old(requests)[id]), PlaceOf(requests[id]);
              && ready == Moved(old(ready), Readied, id, from, to)
              && running == Moved(old(running), Decoding, id, from, to)
      ensures preempted == old(preempted)
    {
      hide Listed, Consistent;
      Shift(id, requests[id].(state := target));
    }

    method MarkPrefillComplete(id: int, transferred: bool) returns (r: Result<()>)
      requires Books()
      modifies this`requests, this`waiting, this`ready, this`running, this`preempted
      ensures Books() && Flows()
      ensures r.Err? ==> requests == old(requests)
      ensures r.Ok? <==> id in old(requests) && PlaceOf(old(requests)[id]).Prompted?
      ensures r.Ok? ==> requests == old(requests)[id := old(requests)[id].(state := if transferred then TransferPending else Ready)]
    {
      hide Listed, Consistent, Moved;
      if id !in requests {
        return Err(KeyError);
      }
      if requests[id].offset != |requests[id].prompt| {
        return Err(RuntimeError);
      }
      if !requests[id].state.PrefillRunning? {
        return Err(RuntimeError);
      }
      Advance(id, if transferred then TransferPending else Ready);
      r := Ok(());
    }

    /** The prefill's own first token reaches the request, as the workers append it. */
    method SeedFirstToken(id: int, token: Token)
      requires Books() && id in requests && id !in InFlight()
      requires PlaceOf(requests[id]).Prompted? && requests[id].generated == []
      requires id in manager.allocations && manager.allocations[id].numTokens == |requests[id].prompt|
      modifies this`requests, this`lags
      ensures Books() && Flows()
      ensures requests == old(requests)[id := old(requests)[id].(generated := [token], seeded := true)]
      ensures lags == old(lags)[id := 1]
    {
      hide Listed, Consistent, At;
      var q := requests[id].(generated := [token], seeded := true);
      OneChanged(requests, manager.allocations, lags, InFlight(), id, q, manager.allocations, lags[id := 1]);
      ListedMoved(requests, waiting, ready, running, preempted, id, q);
      requests := requests[id := q];
      lags := lags[id := 1];
    }

    method MarkTransferComplete(id: int) returns (r: Result<()>)
      requires Books()
      modifies this`requests, this`waiting, this`ready, this`running, this`preempted
      ensures Books() && Flows()
      ensures r.Err? ==> requests == old(requests)
      ensures r.Ok? <==> id in old(requests) && old(requests)[id].state.TransferPending?
      ensures r.Ok? ==> requests == old(requests)[id := old(requests)[id].(state := Ready)]
    {
      hide Listed, Consistent, Moved;
      if id !in requests {
        return Err(KeyError);
      }
      if !requests[id].state.TransferPending? {
        return Err(RuntimeError);
      }
      Advance(id, Ready);
      r := Ok(());
    }

    // ----- preemption and recovery

    /** Gives a running request's pages up; not while its batch is in flight. */
    method Preempt(id: int) returns (r: Result<()>)
      requires Books()
      modifies manager, this`requests, this`waiting, this`ready, this`running, this`preempted
      ensures Books() && Flows()
      ensures r.Err? ==> r.error == RuntimeError && requests == old(requests) && manager.allocations == old(manager.allocations)
      ensures r.Ok? <==> id in old(running) && id !in InFlight()
      ensures r.Ok? ==>
                && id in old(requests) && requests == old(requests)[id := old(requests)[id].(state := Preempted)]
                && id !in manager.allocations && preempted == old(preempted) + [id] && |manager.free| >= |old(manager.free)|
                && id in old(manager.allocations)
                && (id in lags ==> old(manager.allocations)[id].numTokens == Length(requests[id], lags[id]))
    {
      hide Listed, Consistent;
      QueuesDistinct(requests, waiting, ready, running, preempted);
      if inflight.Some? && id in inflight.value.ids {
        return Err(RuntimeError);
      }
      if id !in running {
        return Err(RuntimeError);
      }
      RunningLength(id);
      Surrender(id, requests[id].(state := Preempted));
      r := Ok(());
    }

    /**
     Reserves pages for a preempted request and says what to replay. The replay is as
     long as the state the request gave up (see `Preempt`) if and only if its first token
     came from its prefill, or it has none.
     */
    method Resume(id: int) returns (r: Result<RecoveryPlan>)
      requires Books()
      modifies manager, this`requests, this`waiting, this`ready, this`running, this`preempted, this`lags
      ensures Books() && Flows()
      ensures r.Err? ==> requests == old(requests) && manager.allocations == old(manager.allocations) && lags == old(lags)
      ensures id !in old(requests) ==> r == Err(KeyError)
      ensures id in old(requests) && !old(requests)[id].state.Preempted? ==> r == Err(RuntimeError)
      ensures id in old(requests) && old(requests)[id].state.Preempted? ==>
                var q := old(requests)[id];
                var replayed := |q.prompt| + Max(0, |q.generated| - 1);
                r.Ok? <==>
                  BlocksRequired(Max(replayed, |q.prompt| + Max(0, q.maxNewTokens - 1)), manager.blockSize) <= old(manager.Allocatable())
      ensures r.Ok? ==>
                && id in old(requests) && id in manager.allocations
                && requests == old(requests)[id := old(requests)[id].(state := Recovering)]
                && r.value.id == id && r.value.generated == requests[id].generated && Replays(r.value.replay, requests[id])
                && manager.allocations[id].numTokens == |r.value.replay|
      ensures r.Ok? && id in old(lags) ==>
                (|r.value.replay| == Length(requests[id], old(lags)[id]) <==> old(lags)[id] == 1 || requests[id].generated == [])
      ensures r.Ok? ==> lags == old(lags)[id := if requests[id].generated == [] then 0 else 1]
    {
      hide Listed, Consistent, RequestsOk, RequestOk, Lawful, ReplayOf, Replays, TotalTokens, BlocksRequired;
      if id !in requests {
        return Err(KeyError);
      }
      var q := requests[id];
      if !q.state.Preempted? {
        return Err(RuntimeError);
      }
      var replay := ReplayOf(q);
      ReplayAndLast(q);
      RecoveryIsLawful(q);
      ghost var before := manager.allocations;
      var granted := Regain(id, |replay|);
      if granted.Err? {
        return Err(granted.error);
      }
      var q' := q.(state := Recovering);
      ghost var lags' := lags[id := if q.generated == [] then 0 else 1];
      OneChanged(requests, before, lags, InFlight(), id, q', manager.allocations, lags');
      Move(id, q');
      lags := lags';
      r := Ok(RecoveryPlan(id, replay, q.generated));
    }

    /** Pages for a preempted request, reserved to its end. */
    method Regain(id: int, length: nat) returns (r: Result<BlockAllocation>)
      requires Books() && id in requests && requests[id].state.Preempted? && length == |ReplayOf(requests[id])|
      modifies manager
      ensures manager.Valid()
      ensures r.Err? ==> manager.allocations == old(manager.allocations)
      ensures r.Ok? ==>
                && id in manager.allocations && manager.allocations[id].numTokens == length
                && manager.allocations == old(manager.allocations)[id := manager.allocations[id]]
                && RequestOk(requests[id].(state := Recovering), id, manager.allocations, Some(if requests[id].generated == [] then 0 else 1), false)
      ensures r.Ok? <==> BlocksRequired(Max(length, TotalTokens(requests[id])), manager.blockSize) <= old(manager.Allocatable())
      ensures id in lags ==> 0 <= lags[id] <= 1 && (lags[id] == 1 ==> requests[id].generated != [])
    {
      hide Listed, Consistent, SameExternal, Flying;
      var q := requests[id];
      assert RequestOk(q, id, manager.allocations, LagOf(lags, id), id in InFlight());
      r := manager.Allocate(id, length, Some(Max(length, TotalTokens(q))), []);
      if r.Ok? {
        RecoveringIsOk(q, id, manager.allocations);
      }
    }

    method MarkRecomputeComplete(id: int) returns (r: Result<()>)
      requires Books()
      modifies this`requests, this`waiting, this`ready, this`running, this`preempted
      ensures Books() && Flows()
      ensures r.Err? ==> requests == old(requests)
      ensures r.Ok? <==> id in old(requests) && old(requests)[id].state.Recovering?
      ensures r.Ok? ==> requests == old(requests)[id := old(requests)[id].(state := Ready)]
    {
      hide Listed, Consistent, Moved;
      if id !in requests {
        return Err(KeyError);
      }
      if !requests[id].state.Recovering? {
        return Err(RuntimeError);
      }
      Advance(id, Ready);
      r := Ok(());
    }

    /** A failed recomputation gives its pages back; it may be tried again. */
    method FailRecompute(id: int, retryable: bool) returns (r: Result<()>)
      requires Books()
      modifies manager, this`requests, this`waiting, this`ready, this`running, this`preempted
      ensures Books() && Flows()
      ensures r.Err? ==> requests == old(requests) && manager.allocations == old(manager.allocations)
      ensures r.Ok? <==> id in old(requests) && old(requests)[id].state.Recovering?
      ensures r.Ok? ==>
                && requests == old(requests)[id := old(requests)[id].(state := if retryable then Preempted else Failed)]
                && manager.allocations == old(manager.allocations) - {id}
                && preempted == if retryable then old(preempted) + [id] else old(preempted)
    {
      hide Listed, Consistent;
      if id !in requests {
        return Err(KeyError);
      }
      if !requests[id].state.Recovering? {
        return Err(RuntimeError);
      }
      Surrender(id, requests[id].(state := if retryable then Preempted else Failed));
      r := Ok(());
    }

    /**
     Fails a request wherever it stands. A request of the in-flight batch is not
     spared, and then the batch can never be committed: see `CommitDecodeTokens`.
     */
    method Cancel(id: int) returns (r: Result<()>)
      requires Books()
      modifies manager, this`requests, this`waiting, this`ready, this`running, this`preempted
      ensures Books() && (old(Wedged()) ==> Wedged())
      ensures r.Ok? <==> id in old(requests)
      ensures r.Err? ==> requests == old(requests) && manager.allocations == old(manager.allocations)
      ensures r.Ok? ==>
                && (var q := old(requests)[id]; requests == old(requests)[id := if PlaceOf(q).Done? then q else q.(state := Failed)])
                && manager.allocations == old(manager.allocations) - {id}
      ensures id !in InFlight() ==> Flows()
      ensures old(FlightOk()) && id in InFlight() ==> Wedged()
    {
      hide Listed, Consistent, Moved;
      if id !in requests {
        return Err(KeyError);
      }
      var q := requests[id];
      ghost var flown := inflight;
      QueuesDistinct(requests, waiting, ready, running, preempted);
      Surrender(id, if PlaceOf(q).Done? then q else q.(state := Failed));
      assert flown == inflight;
      r := Ok(());
    }

    // ----- decoding

    /** Starts ready requests in order while there is room. */
    method StartReady()
      requires Books() && inflight.None?
      modifies this`requests, this`waiting, this`ready, this`running, this`preempted
      ensures Books() && (ready == [] || |running| == maxDecodeSequences) && preempted == old(preempted)
      ensures var k := |old(ready)| - |ready|;
              && 0 <= k && ready == old(ready)[k..] && running == old(running) + old(ready)[..k]
              && Became(old(requests), requests, old(ready)[..k], Running)
    {
      hide Books, Distinct;
      ghost var before, queue := requests, ready;
      assert queue[0..] == queue;
      while ready != [] && |running| < maxDecodeSequences
        invariant Books() && inflight.None? && preempted == old(preempted)
        invariant |ready| <= |queue| && ready == queue[|queue| - |ready|..]
        invariant running == old(running) + queue[..|queue| - |ready|]
        invariant Became(before, requests, queue[..|queue| - |ready|], Running)
        decreases |ready|
      {
        ghost var k := |queue| - |ready|;
        assert queue[..k + 1] == queue[..k] + [ready[0]];
        StartHead();
      }
      Lines();
    }

    method StartHead()
      requires Books() && inflight.None? && ready != [] && |running| < maxDecodeSequences
      modifies this`requests, this`waiting, this`ready, this`running, this`preempted
      ensures Books() && preempted == old(preempted)
      ensures ready == old(ready)[1..] && running == old(running) + [old(ready)[0]]
      ensures var id := old(ready)[0]; id in old(requests) && requests == old(requests)[id := old(requests)[id].(state := Running)]
    {
      hide Books, Distinct, At;
      var id := ready[0];
      Heads();
      WithoutHead(ready);
      Advance(id, Running);
    }

    /**
     The next decode step: every running request contributes one token. If the pages
     do not suffice, every one of them is preempted; that cannot happen while all had
     their first token from their prefill and asked for more.
     */
    method NextDecodeBatch() returns (r: Result<DecodeBatch>)
      requires Books()
      modifies manager, this`requests, this`waiting, this`ready, this`running, this`preempted, this`inflight
      ensures Books() && Flows()
      ensures old(inflight).Some? ==>
                r == Err(RuntimeError) && inflight == old(inflight) && requests == old(requests) && manager.allocations == old(manager.allocations)
      ensures old(inflight).None? ==>
                && var k := |old(ready)| - |ready|;
                && 0 <= k && ready == old(ready)[k..]
                && var batch := old(running) + old(ready)[..k];
                && (ready == [] || |batch| == maxDecodeSequences)
                && (r.Ok? ==>
                      && running == r.value.ids == batch && FlightOk()
                      && Became(old(requests), requests, old(ready)[..k], Running)
                      && TokensOf(requests, batch, r.value.tokens)
                      && inflight == if batch == [] then None else Some(r.value))
                && (r.Err? ==>
                      && r.error == MemoryError && running == [] && inflight == None
                      && preempted == old(preempted) + batch
                      && Became(old(requests), requests, batch, Preempted))
      ensures old(inflight).None? && AllSeeded(old(requests), lags) ==> r.Ok?
      ensures old(inflight).None? ==>
                var demand := Demand(old(manager.allocations), old(running) + old(ready)[..Max(0, |old(ready)| - |ready|)], manager.blockSize);
                (r.Ok? <==> demand <= old(manager.Allocatable())) && (r.Ok? ==> |manager.free| == |old(manager.free)| - demand)
    {
      hide Listed, RequestsOk, RequestOk, Consistent, SameExternal, GrewAll, ExtraTotal;
      if inflight.Some? {
        return Err(RuntimeError);
      }
      ghost var line := ready;
      QueuesDistinct(requests, waiting, ready, running, preempted);
      StartReady();
      if running == [] {
        DemandOfNone(manager.allocations, manager.blockSize);
        assert old(running) + line[..|line| - |ready|] == [];
        return Ok(DecodeBatch([], []));
      }
      ghost var started, middle := line[..|line| - |ready|], requests;
      SeededStarts(old(requests), middle, started, lags);
      r := Launch();
      if r.Err? {
        BecameThen(old(requests), middle, requests, started, old(running) + started, Running, Preempted);
      }
    }

    /** The newest token of each running request. */
    method Inputs() returns (tokens: seq<Token>)
      requires Books() && inflight.None?
      ensures TokensOf(requests, running, tokens) && |tokens| == |running|
    {
      hide Listed, RequestsOk, Consistent, TokensOf, LastToken, AllSeeded;
      RunningIsHeld(requests, waiting, ready, running, preempted, manager.allocations, lags);
      var ids, known := running, requests;
      tokens := seq(|ids|, i requires 0 <= i < |ids| && ids[i] in known && known[ids[i]].prompt != [] => LastToken(known[ids[i]]));
      TokensAre(known, ids, tokens);
    }

    /** Grows every running request by one token, or preempts them all. */
    method Launch() returns (r: Result<DecodeBatch>)
      requires Books() && inflight.None? && running != []
      modifies manager, this`requests, this`waiting, this`ready, this`running, this`preempted, this`inflight
      ensures Books() && ready == old(ready)
      ensures r.Ok? ==>
                && requests == old(requests) && running == old(running) == r.value.ids
                && inflight == Some(r.value) && FlightOk() && TokensOf(requests, running, r.value.tokens)
      ensures r.Err? ==>
                && r.error == MemoryError && running == [] && inflight == None
                && preempted == old(preempted) + old(running) && Became(old(requests), requests, old(running), Preempted)
      ensures AllSeeded(old(requests), lags) ==> r.Ok?
      ensures r.Ok? <==> Demand(old(manager.allocations), old(running), manager.blockSize) <= old(manager.Allocatable())
      ensures r.Ok? ==> |manager.free| == |old(manager.free)| - Demand(old(manager.allocations), old(running), manager.blockSize)
    {
      hide Listed, RequestsOk, RequestOk, Consistent, SameExternal, GrewAll, ExtraTotal, PlaceOf, TokensOf, LastToken;
      ghost var before := manager.allocations;
      Sized(manager.numBlocks, manager.blockSize, manager.headroomBlocks, manager.free, manager.refcounts, before);
      RunningIsHeld(requests, waiting, ready, running, preempted, before, lags);
      var tokens := Inputs();
      if AllSeeded(requests, lags) {
        NoMidStreamExhaustion(manager.numBlocks, manager.blockSize, manager.headroomBlocks, manager.free, manager.refcounts, before, running, 1);
      }
      ghost var free := manager.free;
      var grown := manager.GrowMany(running, 1);
      if grown.Err? {
        DisplaceAll();
        return Err(grown.error);
      }
      GrewByOne(before, free, running, manager.blockSize, manager.allocations, grown.value);
      LaunchedIsOk(requests, running, before, manager.allocations, lags);
      LaunchedFlies(requests, waiting, ready, running, preempted);
      var batch := DecodeBatch(running, tokens);
      inflight := Some(batch);
      assert InFlight() == set id | id in running;
      r := Ok(batch);
    }

    /** Preempts every running request, in the order they started. */
    method DisplaceAll()
      requires Books() && inflight.None?
      modifies manager, this`requests, this`waiting, this`ready, this`running, this`preempted
      ensures Books() && running == [] && ready == old(ready)
      ensures preempted == old(preempted) + old(running) && Became(old(requests), requests, old(running), Preempted)
    {
      hide Listed, RequestsOk, RequestOk, Consistent;
      ghost var before, batch := requests, running;
      while running != []
        invariant Books() && inflight.None? && ready == old(ready)
        invariant |running| <= |batch| && running == batch[|batch| - |running|..]
        invariant preempted == old(preempted) + batch[..|batch| - |running|]
        invariant Became(before, requests, batch[..|batch| - |running|], Preempted)
        decreases |running|
      {
        ghost var k := |batch| - |running|;
        assert batch[..k + 1] == batch[..k] + [running[0]];
        DisplaceHead();
      }
    }

    method DisplaceHead()
      requires Books() && inflight.None? && running != []
      modifies manager, this`requests, this`waiting, this`ready, this`running, this`preempted
      ensures Books() && ready == old(ready)
      ensures running == old(running)[1..] && preempted == old(preempted) + [old(running)[0]]
      ensures var id := old(running)[0]; id in old(requests) && requests == old(requests)[id := old(requests)[id].(state := Preempted)]
    {
      hide Books;
      var id := running[0];
      Heads();
      WithoutHead(running);
      Surrender(id, requests[id].(state := Preempted));
    }

    // ----- the outcome of a decode step

    /**
     Appends one token to each request of the in-flight batch and ends those that are
     done. It succeeds if and only if all of them are still running, so for the batch as
     launched. Once one of its requests was cancelled, it fails however often it is tried
     and leaves the batch in flight; every time, the requests before the first one that no
     longer runs get another token.
     */
    method CommitDecodeTokens(batch: DecodeBatch, tokens: seq<Token>) returns (r: Result<()>)
      requires Books()
      modifies manager, this`requests, this`waiting, this`ready, this`running, this`preempted, this`inflight, this`lags
      ensures Books() && (old(Wedged()) ==> Wedged())
      ensures |batch.ids| != |tokens| ==> r == Err(ValueError)
      ensures |batch.ids| == |tokens| && old(inflight) != Some(batch) ==> r == Err(RuntimeError)
      ensures |batch.ids| != |tokens| || old(inflight) != Some(batch) ==>
                requests == old(requests) && inflight == old(inflight) && manager.allocations == old(manager.allocations)
      ensures old(Wedged()) ==> r.Err? && inflight == old(inflight)
      ensures |batch.ids| == |tokens| && old(inflight) == Some(batch) ==>
                && (r.Ok? <==> forall id :: id in batch.ids ==> id in old(running))
                && (r.Err? ==> r.error == RuntimeError && inflight == old(inflight))
                && Committed(old(requests), requests, batch.ids, tokens, StillRunning(batch.ids, old(running)))
      ensures |batch.ids| == |tokens| && old(inflight) == Some(batch) && old(FlightOk()) ==> r.Ok?
      ensures r.Ok? ==> inflight == None && lags == old(lags) && Committed(old(requests), requests, batch.ids, tokens, |tokens|)
      ensures |manager.free| >= |old(manager.free)|
    {
      hide Listed, RequestsOk, RequestOk, Consistent, Committed, Flying, StillRunning;
      if |batch.ids| != |tokens| {
        return Err(ValueError);
      }
      if inflight != Some(batch) {
        return Err(RuntimeError);
      }
      ghost var known := requests;
      LostIsIdle(requests, waiting, ready, running, preempted, batch.ids);
      AllRunning(batch.ids, running);
      var done := AppendTokens(batch, tokens);
      if !done {
        LostStays(known, requests, batch.ids, tokens, old(running));
        return Err(RuntimeError);
      }
      FlyingNone(requests);
      inflight := None;
      r := Ok(());
    }

    /** Appends the tokens one by one, up to the first request that no longer runs. */
    method AppendTokens(batch: DecodeBatch, tokens: seq<Token>) returns (done: bool)
      requires Books() && inflight == Some(batch) && |batch.ids| == |tokens|
      modifies manager, this`requests, this`waiting, this`ready, this`running, this`preempted, this`lags
      ensures manager.Valid() && Listed(requests, waiting, ready, running, preempted) && |running| <= maxDecodeSequences
      ensures Committed(old(requests), requests, batch.ids, tokens, StillRunning(batch.ids, old(running)))
      ensures done <==> StillRunning(batch.ids, old(running)) == |batch.ids|
      ensures done ==> lags == old(lags) && RequestsOk(requests, manager.allocations, lags, {})
      ensures !done ==> Books()
      ensures |manager.free| >= |old(manager.free)|
    {
      hide Listed, RequestsOk, RequestOk, Consistent, Committed, Flying;
      ghost var known := requests;
      ghost var first := StillRunning(batch.ids, running);
      hide StillRunning;
      QueuesDistinct(requests, waiting, ready, running, preempted);
      CommittedNone(known, batch.ids, tokens);
      PendingAll(batch.ids);
      for i := 0 to |tokens|
        invariant lags == old(lags) && |manager.free| >= |old(manager.free)|
        invariant manager.Valid() && Listed(requests, waiting, ready, running, preempted) && |running| <= maxDecodeSequences
        invariant Flying(requests, InFlight())
        invariant RequestsOk(requests, manager.allocations, lags, Pending(batch.ids, i))
        invariant i <= first && forall k :: i <= k < |batch.ids| ==> (batch.ids[k] in running <==> batch.ids[k] in old(running))
        invariant Committed(known, requests, batch.ids, tokens, i)
      {
        var id := batch.ids[i];
        QueuesDistinct(requests, waiting, ready, running, preempted);
        if id !in running {
          Unlagged(requests, manager.allocations, lags, Pending(batch.ids, i), set x | x in batch.ids);
          lags := lags - set x | x in batch.ids;
          return false;
        }
        CommittedNext(known, requests, batch.ids, tokens, i);
        PendingNext(batch.ids, i);
        FlyingStays(requests, InFlight(), id, Extended(requests[id], tokens[i]));
        ghost var was := running;
        Accept(id, tokens[i], Pending(batch.ids, i));
        forall k | i < k < |batch.ids| ensures batch.ids[k] in running <==> batch.ids[k] in was {
          var other := batch.ids[k];
          assert other != id;
        }
      }
      assert Pending(batch.ids, |tokens|) == {};
      done := true;
    }

    /** One token of the step's result; it may be the request's last. */
    method Accept(id: int, token: Token, ghost pending: set<int>)
      requires manager.Valid() && Listed(requests, waiting, ready, running, preempted)
      requires RequestsOk(requests, manager.allocations, lags, pending)
      requires id in requests && requests[id].state.Running? && id in pending
      modifies manager, this`requests, this`waiting, this`ready, this`running, this`preempted
      ensures manager.Valid() && Listed(requests, waiting, ready, running, preempted)
      ensures RequestsOk(requests, manager.allocations, lags, pending - {id})
      ensures requests == old(requests)[id := Extended(old(requests)[id], token)]
      ensures |running| <= |old(running)| && forall x :: x in old(running) && x != id ==> x in running
      ensures forall x :: x in running ==> x in old(running)
      ensures Extended(old(requests)[id], token).state.Running? ==> running == old(running)
      ensures Lawful(old(requests)[id].state, requests[id].state)
      ensures |manager.free| >= |old(manager.free)|
    {
      hide Listed, RequestsOk, RequestOk, Consistent, SameExternal, Lists;
      var q := Extended(requests[id], token);
      ghost var before := manager.allocations;
      OneLanded(requests, before, lags, pending, id, token);
      if q.state.Finished? {
        manager.Free(id);
      }
      Move(id, q);
    }

    /** Ends every request of the in-flight batch; after a cancellation it fails like a commit. */
    method FailDecodeBatch(batch: DecodeBatch) returns (r: Result<()>)
      requires Books()
      modifies manager, this`requests, this`waiting, this`ready, this`running, this`preempted, this`inflight
      ensures Books() && (old(Wedged()) ==> Wedged())
      ensures old(inflight) != Some(batch) ==>
                r == Err(RuntimeError) && requests == old(requests) && inflight == old(inflight) && manager.allocations == old(manager.allocations)
      ensures old(Wedged()) ==> r.Err? && inflight == old(inflight)
      ensures old(inflight) == Some(batch) && old(FlightOk()) ==> r.Ok?
      ensures r.Ok? ==> inflight == None && Became(old(requests), requests, batch.ids, Failed)
    {
      hide Books, Became;
      if inflight != Some(batch) {
        return Err(RuntimeError);
      }
      ghost var known, broken := requests, Wedged();
      ghost var lost := 0;
      if broken {
        lost :| lost in batch.ids && lost in requests && requests[lost].state.Failed?;
      }
      if FlightOk() {
        forall k | 0 <= k < |batch.ids| ensures batch.ids[k] in running {
          var id := batch.ids[k];
          assert id in inflight.value.ids;
        }
      }
      Lines();
      BecameNone(known, batch.ids, Failed);
      for i := 0 to |batch.ids|
        invariant Books() && inflight == Some(batch)
        invariant broken ==> Wedged() && lost in requests && requests[lost].state.Failed? && lost in batch.ids && lost !in batch.ids[..i]
        invariant old(FlightOk()) ==> forall k :: i <= k < |batch.ids| ==> batch.ids[k] in running
        invariant Became(known, requests, batch.ids[..i], Failed)
      {
        var id := batch.ids[i];
        Lines();
        if id !in running {
          return Err(KeyError);
        }
        NotYet(batch.ids, i);
        assert forall k :: i < k < |batch.ids| ==> batch.ids[k] != id;
        BecameNext(known, requests, batch.ids, i, Failed);
        FailHead(id);
      }
      assert batch.ids[..|batch.ids|] == batch.ids;
      Settle(known);
      r := Ok(());
    }

    method FailHead(id: int)
      requires Books() && id in requests && requests[id].state.Running?
      modifies manager, this`requests, this`waiting, this`ready, this`running, this`preempted
      ensures Books() && (old(Wedged()) ==> Wedged())
      ensures requests == old(requests)[id := old(requests)[id].(state := Failed)]
      ensures forall x :: x in old(running) && x != id ==> x in running
    {
      hide Books;
      Known(id);
      Surrender(id, requests[id].(state := Failed));
    }

    method Settle(ghost before: Requests)
      requires Books() && inflight.Some? && Became(before, requests, inflight.value.ids, Failed)
      modifies this`inflight
      ensures Books() && inflight == None
    {
      hide Listed, Consistent;
      inflight := None;
      forall id | id in requests ensures RequestOk(requests[id], id, manager.allocations, LagOf(lags, id), false) {
        assert RequestOk(requests[id], id, manager.allocations, LagOf(lags, id), id in old(InFlight()));
      }
    }
  }

  lemma FreshIsOk(q: Request, id: int, allocations: Allocations, lag: Option<int>)
    requires q.prompt != [] && q.offset == 0 && q.state.Waiting? && q.generated == [] && !q.seeded
    requires id in allocations && lag == if allocations[id].numTokens == |q.prompt| then Some(0) else None
    requires id in allocations && allocations[id].reservedTokens >= TotalTokens(q)
    ensures RequestOk(q, id, allocations, lag, false) && PlaceOf(q).Prompting?
  {
  }

  lemma SurrenderedIsOk(
    requests: Requests, allocations: Allocations, lags: map<int, int>, inflight: set<int>, id: int, q: Request, allocations': Allocations)
    requires RequestsOk(requests, allocations, lags, inflight) && id in requests
    requires q == requests[id].(state := q.state) && !Holding(q.state) && WellFormed(q) && id !in allocations'
    requires id in inflight || PlaceOf(requests[id]).Done? ==> PlaceOf(q).Done?
    ensures RequestOk(q, id, allocations', LagOf(lags, id), id in inflight) && !PlaceOf(q).Decoding?
  {
  }

  lemma MovedShrinks(queue: seq<int>, p: Place, id: int, from: Place, to: Place)
    requires to != p || from == p
    ensures |Moved(queue, p, id, from, to)| <= |queue|
  {
  }

  /** The next chunk of a prompt: as much as is left, as a chunk may hold, and as the budget allows. */
  predicate NextChunk(q: Request, q': Request, item: PrefillBatchItem, chunkSize: nat, budget: int) {
    && item.start == q.offset < item.end
    && item.end - item.start == Min(|q.prompt| - q.offset, Min(chunkSize, budget))
    && q' == q.(state := PrefillRunning, offset := item.end)
  }

  /**
   The items are of the first requests in line, in order, each from where its prompt
   stopped to where it now stands; nobody else changed.
   */
  ghost predicate Continues(
    line: seq<int>, before: Requests, now: Requests, items: seq<PrefillBatchItem>, chunkSize: nat, budget: nat)
  {
    && |items| <= |line| && now.Keys == before.Keys
    && (forall i :: 0 <= i < |items| ==>
          && items[i].id == line[i] && line[i] in before
          && NextChunk(before[line[i]], now[line[i]], items[i], chunkSize, Left(items, i, budget)))
    && (forall id :: id in now && id !in line[..|items|] ==> now[id] == before[id])
  }

  lemma ContinuesFrom(line: seq<int>, requests: Requests, chunkSize: nat, budget: nat)
    ensures Continues(line, requests, requests, [], chunkSize, budget)
  {
  }

  lemma ContinuesNext(
    line: seq<int>, before: Requests, now: Requests, now': Requests, items: seq<PrefillBatchItem>, chunkSize: nat, budget: nat,
    item: PrefillBatchItem)
    requires Continues(line, before, now, items, chunkSize, budget) && |items| < |line| && Distinct(line)
    requires item.id == line[|items|] && item.id in now && now'.Keys == now.Keys
    requires NextChunk(now[item.id], now'[item.id], item, chunkSize, budget - Size(items))
    requires now' == now[item.id := now'[item.id]]
    ensures Continues(line, before, now', items + [item], chunkSize, budget)
  {
    hide NextChunk, Left;
    NotYet(line, |items|);
    var n, more := |items|, items + [item];
    LeftIs(items, item, n, budget);
    forall i | 0 <= i < |more|
      ensures more[i].id == line[i] && line[i] in before
      ensures NextChunk(before[line[i]], now'[line[i]], more[i], chunkSize, Left(more, i, budget))
    {
      if i < n {
        LeftIs(items, item, i, budget);
        assert line[i] != line[n] && more[i] == items[i];
        assert now'[line[i]] == now[line[i]];
      } else {
        assert now[line[n]] == before[line[n]];
      }
    }
  }

  /** What the first `i` items leave of the budget. */
  function Left(items: seq<PrefillBatchItem>, i: nat, budget: int): int
    requires i <= |items|
  {
    budget - Size(items[..i])
  }

  lemma LeftIs(items: seq<PrefillBatchItem>, item: PrefillBatchItem, i: nat, budget: int)
    requires i <= |items|
    ensures Left(items + [item], i, budget) == Left(items, i, budget)
    ensures i == |items| ==> Left(items, i, budget) == budget - Size(items)
  {
    assert (items + [item])[..i] == items[..i];
    assert items[..|items|] == items;
  }

  /** The prompt tokens a batch schedules. */
  function Size(items: seq<PrefillBatchItem>): int {
    if items == [] then 0
    else var last := items[|items| - 1]; Size(items[..|items| - 1]) + last.end - last.start
  }

  lemma WaitingHead(
    requests: Requests, waiting: seq<int>, ready: seq<int>, running: seq<int>, preempted: seq<int>,
    allocations: Allocations, lags: map<int, int>, inflight: set<int>)
    requires Listed(requests, waiting, ready, running, preempted) && waiting != []
    requires RequestsOk(requests, allocations, lags, inflight)
    ensures waiting[0] in requests && PlaceOf(requests[waiting[0]]).Prompting? && Distinct(waiting)
    ensures RequestOk(requests[waiting[0]], waiting[0], allocations, LagOf(lags, waiting[0]), waiting[0] in inflight)
    ensures waiting[0] !in running && requests[waiting[0]].offset < |requests[waiting[0]].prompt|
  {
    var id := waiting[0];
    assert id in waiting;
  }

  lemma ChunkIsOk(q: Request, q': Request, id: int, allocations: Allocations, lag: Option<int>)
    requires RequestOk(q, id, allocations, lag, false) && (q.state.Waiting? || q.state.PrefillRunning?)
    requires q' == q.(state := PrefillRunning, offset := q'.offset) && q'.offset <= |q.prompt|
    ensures RequestOk(q', id, allocations, lag, false)
  {
  }

  lemma QueuesDistinct(requests: Requests, waiting: seq<int>, ready: seq<int>, running: seq<int>, preempted: seq<int>)
    requires Listed(requests, waiting, ready, running, preempted)
    ensures Distinct(waiting) && Distinct(ready) && Distinct(running) && Distinct(preempted)
    ensures forall id :: id in running ==> id in requests && PlaceOf(requests[id]).Decoding?
    ensures forall id :: id in ready ==> id in requests && PlaceOf(requests[id]).Readied?
  {
  }

  /** What recovery recomputes: the prompt and all generated tokens but the last. */
  function ReplayOf(q: Request): seq<Token> {
    q.prompt + if q.generated == [] then [] else q.generated[..|q.generated| - 1]
  }

  /** With its last generated token, if it has one, the replay is everything the request has. */
  ghost predicate Replays(replay: seq<Token>, q: Request) {
    if q.generated == [] then replay == q.prompt else replay + [q.generated[|q.generated| - 1]] == q.prompt + q.generated
  }

  lemma RecoveryIsLawful(q: Request)
    ensures q.state.Preempted? ==> Lawful(q.state, Recovering)
    ensures TotalTokens(q) == |q.prompt| + Max(0, q.maxNewTokens - 1)
  {
  }

  lemma ReplayAndLast(q: Request)
    ensures |ReplayOf(q)| == |q.prompt| + Max(0, |q.generated| - 1)
    ensures forall s :: Replays(ReplayOf(q), q.(state := s))
  {
  }

  /** A request after one more token. */
  function Extended(q: Request, token: Token): Request {
    var generated := q.generated + [token];
    q.(generated := generated, state := if |generated| >= q.maxNewTokens then Finished else q.state)
  }

  /** The first `n` requests of the batch got their tokens, and nothing else changed. */
  ghost predicate Committed(before: Requests, now: Requests, ids: seq<int>, tokens: seq<Token>, n: nat) {
    && now.Keys == before.Keys && n <= |ids| && n <= |tokens|
    && (forall k :: 0 <= k < n ==> ids[k] in before && now[ids[k]] == Extended(before[ids[k]], tokens[k]))
    && (forall id :: id in now && id !in ids[..n] ==> now[id] == before[id])
  }

  /** How many of the first in line are running. */
  function StillRunning(ids: seq<int>, running: seq<int>): (n: nat)
    ensures n <= |ids| && (forall k :: 0 <= k < n ==> ids[k] in running) && (n < |ids| ==> ids[n] !in running)
  {
    if ids == [] || ids[0] !in running then 0
    else
      var n := StillRunning(ids[1..], running);
      assert forall k :: 0 <= k < |ids| - 1 ==> ids[1..][k] == ids[k + 1];
      n + 1
  }

  lemma AllRunning(ids: seq<int>, running: seq<int>)
    ensures StillRunning(ids, running) == |ids| <==> forall id :: id in ids ==> id in running
  {
    var n := StillRunning(ids, running);
    if n < |ids| {
      var id := ids[n];
      assert id in ids;
    }
  }

  /** A request that has failed is not running. */
  lemma LostIsIdle(requests: Requests, waiting: seq<int>, ready: seq<int>, running: seq<int>, preempted: seq<int>, ids: seq<int>)
    requires Listed(requests, waiting, ready, running, preempted)
    ensures forall id :: id in ids && id in requests && requests[id].state.Failed? ==> id !in running
  {
    QueuesDistinct(requests, waiting, ready, running, preempted);
  }

  /** It is as it was after a commit that stopped at it or before. */
  lemma LostStays(before: Requests, now: Requests, ids: seq<int>, tokens: seq<Token>, running: seq<int>)
    requires |ids| == |tokens| && Committed(before, now, ids, tokens, StillRunning(ids, running))
    ensures forall id :: id in ids && id in before && id !in running ==> id in now && now[id] == before[id]
  {
    var n := StillRunning(ids, running);
    forall id | id in ids && id in before && id !in running ensures id in now && now[id] == before[id] {
      assert id !in ids[..n];
    }
  }

  lemma CommittedNone(before: Requests, ids: seq<int>, tokens: seq<Token>)
    ensures Committed(before, before, ids, tokens, 0)
  {
  }

  lemma CommittedNext(before: Requests, now: Requests, ids: seq<int>, tokens: seq<Token>, n: nat)
    requires Committed(before, now, ids, tokens, n) && n < |ids| && n < |tokens| && Distinct(ids) && ids[n] in now
    ensures Committed(before, now[ids[n] := Extended(now[ids[n]], tokens[n])], ids, tokens, n + 1)
  {
    hide Extended;
    NotYet(ids, n);
    var now' := now[ids[n] := Extended(now[ids[n]], tokens[n])];
    var id := ids[n];
    assert id in now && id !in ids[..n];
    assert now[id] == before[id];
    forall k | 0 <= k < n + 1 ensures ids[k] in before && now'[ids[k]] == Extended(before[ids[k]], tokens[k]) {
      if k < n {
        assert ids[k] != ids[n];
        assert now'[ids[k]] == now[ids[k]];
      }
    }
  }

  /** Those of the batch whose tokens are still to come. */
  function Pending(ids: seq<int>, i: nat): set<int> {
    set id | id in ids && i <= |ids| && id in ids[i..]
  }

  lemma PendingAll(ids: seq<int>)
    ensures Pending(ids, 0) == set id | id in ids
  {
    assert ids[0..] == ids;
  }

  lemma PendingNext(ids: seq<int>, i: nat)
    requires Distinct(ids) && i < |ids|
    ensures ids[i] in Pending(ids, i) && Pending(ids, i) - {ids[i]} == Pending(ids, i + 1)
  {
    assert ids[i..] == [ids[i]] + ids[i + 1..];
  }

  lemma FlyingNone(requests: Requests)
    ensures Flying(requests, {})
  {
  }

  lemma FlyingStays(requests: Requests, inflight: set<int>, id: int, q: Request)
    requires Flying(requests, inflight) && (PlaceOf(q).Decoding? || PlaceOf(q).Done?)
    ensures Flying(requests[id := q], inflight)
  {
  }

  lemma OneLanded(requests: Requests, allocations: Allocations, lags: map<int, int>, pending: set<int>, id: int, token: Token)
    requires RequestsOk(requests, allocations, lags, pending)
    requires id in requests && requests[id].state.Running? && id in pending
    ensures var q := Extended(requests[id], token);
            RequestsOk(requests[id := q], if q.state.Finished? then allocations - {id} else allocations, lags, pending - {id})
  {
    var q := Extended(requests[id], token);
    var requests', allocations' := requests[id := q], if q.state.Finished? then allocations - {id} else allocations;
    forall x | x in requests' ensures RequestOk(requests'[x], x, allocations', LagOf(lags, x), x in pending - {id}) {
      assert RequestOk(requests[x], x, allocations, LagOf(lags, x), x in pending);
    }
  }

  /** Without their tie between tokens and length, it does not matter which requests are in flight. */
  lemma Unlagged(requests: Requests, allocations: Allocations, lags: map<int, int>, pending: set<int>, inflight: set<int>)
    requires RequestsOk(requests, allocations, lags, pending) && pending <= inflight
    ensures RequestsOk(requests, allocations, lags - inflight, inflight)
  {
    forall id | id in requests ensures RequestOk(requests[id], id, allocations, LagOf(lags - inflight, id), id in inflight) {
      assert RequestOk(requests[id], id, allocations, LagOf(lags, id), id in pending);
    }
  }

  function LastToken(q: Request): Token
    requires q.prompt != []
  {
    if q.generated == [] then q.prompt[|q.prompt| - 1] else q.generated[|q.generated| - 1]
  }

  /** The inputs of a decode step: the newest token of each request. */
  ghost predicate TokensOf(requests: Requests, ids: seq<int>, tokens: seq<Token>) {
    && |tokens| == |ids|
    && forall i :: 0 <= i < |ids| ==>
         && ids[i] in requests && requests[ids[i]].prompt != []
         && var all := requests[ids[i]].prompt + requests[ids[i]].generated;
            tokens[i] == all[|all| - 1]
  }

  lemma TokensAre(requests: Requests, ids: seq<int>, tokens: seq<Token>)
    requires |tokens| == |ids|
    requires forall i :: 0 <= i < |ids| ==> ids[i] in requests && requests[ids[i]].prompt != [] && tokens[i] == LastToken(requests[ids[i]])
    ensures TokensOf(requests, ids, tokens)
  {
  }

  /** The named requests changed state, and nothing else changed. */
  ghost predicate Became(before: Requests, now: Requests, ids: seq<int>, s: RequestState) {
    && now.Keys == before.Keys
    && forall id :: id in now ==> now[id] == if id in ids then before[id].(state := s) else before[id]
  }

  lemma BecameNone(before: Requests, ids: seq<int>, s: RequestState)
    ensures Became(before, before, ids[..0], s)
  {
  }

  lemma BecameNext(before: Requests, now: Requests, ids: seq<int>, n: nat, s: RequestState)
    requires n < |ids| && Distinct(ids) && ids[n] in now && Became(before, now, ids[..n], s)
    ensures Became(before, now[ids[n] := now[ids[n]].(state := s)], ids[..n + 1], s)
  {
    NotYet(ids, n);
    var id := ids[n];
    assert now[id] == before[id];
  }

  lemma BecameThen(before: Requests, middle: Requests, now: Requests, started: seq<int>, ids: seq<int>, s: RequestState, t: RequestState)
    requires Became(before, middle, started, s) && Became(middle, now, ids, t)
    requires forall id :: id in started ==> id in ids
    ensures Became(before, now, ids, t)
  {
  }

  /** Whoever may decode had its first token from its prefill, and asked for more than it has. */
  ghost predicate AllSeeded(requests: Requests, lags: map<int, int>) {
    forall id :: id in requests && (requests[id].state.Ready? || requests[id].state.Running?) ==> Seeded(requests[id], LagOf(lags, id))
  }

  predicate Seeded(q: Request, lag: Option<int>) {
    lag == Some(1) && |q.generated| < q.maxNewTokens
  }

  /** The pages a decode step of these requests takes from the free ones. */
  ghost function Demand(allocations: Allocations, ids: seq<int>, blockSize: nat): nat {
    if blockSize > 0 && forall id :: id in ids ==> id in allocations then ExtraTotal(allocations, ids, 1, blockSize) else 0
  }

  lemma DemandOfNone(allocations: Allocations, blockSize: nat)
    ensures Demand(allocations, [], blockSize) == 0
  {
  }

  lemma Sized(numBlocks: nat, blockSize: nat, headroom: nat, free: seq<int>, refcounts: seq<nat>, allocations: Allocations)
    requires Consistent(numBlocks, blockSize, headroom, free, refcounts, allocations)
    ensures blockSize > 0
  {
  }

  lemma RecoveringIsOk(q: Request, id: int, allocations: Allocations)
    requires WellFormed(q) && q.state.Preempted? && id in allocations
    requires allocations[id].numTokens == |ReplayOf(q)| && allocations[id].reservedTokens >= TotalTokens(q)
    ensures RequestOk(q.(state := Recovering), id, allocations, Some(if q.generated == [] then 0 else 1), false)
  {
  }

  lemma SeededStarts(
    before: Requests, now: Requests, started: seq<int>, lags: map<int, int>)
    requires Became(before, now, started, Running)
    requires forall id :: id in started ==> id in before && PlaceOf(before[id]).Readied?
    ensures AllSeeded(before, lags) ==> AllSeeded(now, lags)
  {
  }

  /** Every running request has its pages, and room for one more token when its first came from its prefill. */
  lemma RunningIsHeld(
    requests: Requests, waiting: seq<int>, ready: seq<int>, running: seq<int>, preempted: seq<int>,
    allocations: Allocations, lags: map<int, int>)
    requires Listed(requests, waiting, ready, running, preempted)
    requires RequestsOk(requests, allocations, lags, {})
    ensures Distinct(running)
    ensures forall id :: id in running ==>
              && id in requests && requests[id].state.Running? && requests[id].prompt != [] && WellFormed(requests[id])
              && id in allocations
    ensures AllSeeded(requests, lags) ==>
              forall id :: id in running ==> id in allocations && allocations[id].numTokens + 1 <= allocations[id].reservedTokens
    ensures forall i :: 0 <= i < |running| ==> running[i] in requests && requests[running[i]].prompt != []
  {
    assert forall i :: 0 <= i < |running| ==> running[i] in running;
    forall id | id in running
      ensures id in requests && requests[id].state.Running? && requests[id].prompt != [] && WellFormed(requests[id]) && id in allocations
      ensures AllSeeded(requests, lags) ==> allocations[id].numTokens + 1 <= allocations[id].reservedTokens
    {
      assert RequestOk(requests[id], id, allocations, LagOf(lags, id), id in {});
    }
  }

  lemma IsWellFormed(requests: Requests, allocations: Allocations, lags: map<int, int>, inflight: set<int>, id: int)
    requires RequestsOk(requests, allocations, lags, inflight) && id in requests
    ensures WellFormed(requests[id])
  {
    assert RequestOk(requests[id], id, allocations, LagOf(lags, id), id in inflight);
  }

  lemma LaunchedIsOk(requests: Requests, running: seq<int>, before: Allocations, allocations: Allocations, lags: map<int, int>)
    requires RequestsOk(requests, before, lags, {})
    requires forall id :: id in running ==> id in requests && requests[id].state.Running?
    requires allocations.Keys == before.Keys
    requires forall id :: id in running ==>
               id in allocations && allocations[id].numTokens == before[id].numTokens + 1 && allocations[id].reservedTokens >= before[id].reservedTokens
    requires forall id :: id in allocations && id !in running ==> allocations[id] == before[id]
    ensures RequestsOk(requests, allocations, lags, set id | id in running)
  {
    var inflight := set id | id in running;
    forall id | id in requests ensures RequestOk(requests[id], id, allocations, LagOf(lags, id), id in inflight) {
      assert RequestOk(requests[id], id, before, LagOf(lags, id), id in {});
    }
  }

  lemma LaunchedFlies(requests: Requests, waiting: seq<int>, ready: seq<int>, running: seq<int>, preempted: seq<int>)
    requires Listed(requests, waiting, ready, running, preempted)
    ensures Flying(requests, set id | id in running)
  {
    QueuesDistinct(requests, waiting, ready, running, preempted);
  }
}
