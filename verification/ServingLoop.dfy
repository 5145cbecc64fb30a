/**
 The synchronous generation loop: admission, preemption, exact recovery, decode and
 release of many requests over one backend.
 */
module ServingLoop {
  import opened Basics
  import opened GenerationStream
  import opened GenerationBackend
  import opened Queues
  import opened ServingBooks

  datatype Limits = Limits(
    maxActive: nat,
    maxBatch: nat,
    maxQueueSize: nat,
    maxQueueTokens: nat,
    maxStepTokens: nat,
    maxPreemptions: nat,
    maxPriority: nat)

  function ReleasingIds(releasing: seq<Release>): set<int> {
    set i | 0 <= i < |releasing| :: releasing[i].id
  }

  lemma ReleasingNext(releasing: seq<Release>, r: Release)
    ensures ReleasingIds(releasing + [r]) == ReleasingIds(releasing) + {r.id}
  {
    var longer := releasing + [r];
    assert forall i :: 0 <= i < |releasing| ==> longer[i] == releasing[i];
    assert longer[|releasing|] == r;
    forall id ensures id in ReleasingIds(longer) <==> id in ReleasingIds(releasing) || id == r.id {
      if id in ReleasingIds(releasing) {
        var i :| 0 <= i < |releasing| && releasing[i].id == id;
        assert longer[i].id == id;
      }
    }
  }

  ghost predicate Listed(
    places: Places, incoming: seq<int>, deferred: seq<int>, taken: seq<int>, preempted: seq<int>, active: set<int>)
  {
    && At(places, incoming, Incoming)
    && At(places, deferred, Deferred)
    && At(places, taken, Taken)
    && At(places, preempted, Preempted)
    && SetAt(places, active, Active)
  }

  ghost predicate Counted(requests: Requests, queued: seq<int>, pendingCount: int, pendingTokens: int) {
    && (forall id :: id in queued ==> id in requests)
    && pendingCount == |queued|
    && pendingTokens == Demand(requests, queued)
  }

  /** What is known about one submitted request, wherever it is. */
  ghost predicate RequestOk(loop: LoopConfig, id: int, q: Request, p: Place, releasing: bool) {
    && q.spec.id == id
    && (q.registered <==> !p.Ended?)
    && q.preemptions <= loop.limits.maxPreemptions
    && StreamOk(loop.sampler, loop.eos, q.spec, q.generated, p)
    && Received(q.received, q.spec, loop.eos, q.generated, p.Ended? && !releasing)
    && (releasing ==> p.Ended?)
  }

  datatype LoopConfig = LoopConfig(sampler: Sampler, limits: Limits, eos: Option<Token>)

  /** Every stream is its request's own, and every handle received exactly that. */
  ghost predicate Streaming(loop: LoopConfig, places: Places, requests: Requests, releasing: seq<Release>, nextId: nat) {
    && requests.Keys == places.Keys
    && (forall id :: id in places ==>
          0 <= id < nextId && RequestOk(loop, id, requests[id], places[id], id in ReleasingIds(releasing)))
    && (forall i, j :: 0 <= i < j < |releasing| ==> releasing[i].id != releasing[j].id)
    && ReleasingIds(releasing) <= places.Keys
    && Announced(loop, requests, releasing)
  }

  /** What each request that is being released will be told of its end is true. */
  ghost predicate Announced(loop: LoopConfig, requests: Requests, releasing: seq<Release>) {
    forall i :: 0 <= i < |releasing| ==>
      && releasing[i].id in requests
      && var q := requests[releasing[i].id];
         Justified(q.spec, loop.eos, q.generated, releasing[i].reason)
  }

  ghost predicate Exact(active: set<int>, requests: Requests, states: States) {
    forall id :: id in active ==> id in requests && requests[id].spec.id == id && ExactState(requests[id].spec, requests[id].generated, states)
  }

  /** The backend holds resources for the requests that were granted them, and for some that ended without giving them back. */
  ghost predicate Owned(places: Places, active: set<int>, releasing: seq<Release>, reserved: set<int>, granted: set<int>) {
    && active <= granted <= reserved
    && (forall id :: id in reserved - granted ==> id in places && places[id].Ended? && id !in ReleasingIds(releasing))
    && (forall id :: id in granted ==>
          id in places && (places[id].Active? || places[id].Held? || places[id].Taken? || (places[id].Ended? && id in ReleasingIds(releasing))))
  }

  class ContinuousGenerationLoop {
    const backend: Backend
    const loop: LoopConfig
    var nextId: nat
    var requests: Requests
    var incoming: seq<int>
    var deferred: seq<int>
    /** The candidates an admission pass still has in hand. */
    var taken: seq<int>
    var preempted: seq<int>
    var active: set<int>
    var releasing: seq<Release>
    var pendingCount: int
    var pendingTokens: int
    ghost var places: Places
    /** Requests whose resources the loop still knows it has to give back. */
    ghost var granted: set<int>

    ghost predicate Queued()
      reads this
    {
      && Counted(requests, incoming + deferred + taken, pendingCount, pendingTokens)
      && pendingCount <= loop.limits.maxQueueSize && pendingTokens <= loop.limits.maxQueueTokens
    }

    /** All books are right, except that the states of `pending` requests are ahead of their streams. */
    ghost predicate ValidBut(pending: set<int>)
      reads this, backend
    {
      && backend.sampler == loop.sampler
      && Listed(places, incoming, deferred, taken, preempted, active)
      && |active| <= loop.limits.maxActive
      && Queued()
      && Streaming(loop, places, requests, releasing, nextId)
      && Exact(active - pending, requests, backend.states)
      && Owned(places, active, releasing, backend.reserved, granted)
    }

    ghost predicate Valid()
      reads this, backend
    {
      ValidBut({})
    }

    /** Ended requests whose resources nobody will release any more. */
    ghost function Leaked(): set<int>
      reads this, backend
    {
      backend.reserved - granted
    }

    constructor (backend: Backend, limits: Limits, eos: Option<Token>)
      requires backend.states == map[] && backend.reserved == {}
      ensures Valid()
      ensures this.backend == backend && loop == LoopConfig(backend.sampler, limits, eos)
      ensures places == map[] && requests == map[] && Leaked() == {} && nextId == 0
      ensures incoming == deferred == taken == preempted == [] && active == {} && pendingCount == pendingTokens == 0
    {
      this.backend := backend;
      this.loop := LoopConfig(backend.sampler, limits, eos);
      nextId := 0;
      requests := map[];
      incoming, deferred, taken, preempted, releasing := [], [], [], [], [];
      active := {};
      pendingCount, pendingTokens := 0, 0;
      places, granted := map[], {};
      new;
      hide Listed, Counted, Streaming, Exact, Owned;
      NobodyYet(loop, backend.states);
      assert incoming + deferred + taken == [] && active - {} == {};
    }

    // ----- what the books say

    lemma Actives()
      requires Valid()
      ensures forall id :: id in active ==> id in places && id in requests && places[id].Active?
      ensures |active| <= loop.limits.maxActive
    {
      hide Listed, Counted, Streaming, Exact, Owned;
      ActiveAreKnown(places, incoming, deferred, taken, preempted, active, loop, requests, releasing, nextId);
    }

    lemma Head()
      requires Valid() && taken != []
      ensures var id := taken[0];
              && id in places && places[id].Taken? && id in requests && requests[id].generated == [] && requests[id].spec.id == id
              && id !in active && id !in taken[1..]
    {
      hide Listed, Counted, Streaming, Exact, Owned;
      HeadIsTaken(places, incoming, deferred, taken, preempted, active, requests, pendingCount, pendingTokens);
      FreshHead(loop, places, requests, releasing, nextId, taken[0]);
    }

    lemma Queues()
      requires Valid()
      ensures Distinct(taken) && Distinct(preempted)
      ensures forall id :: id in deferred + incoming ==> id !in granted && id in places && (places[id].Incoming? || places[id].Deferred?)
      ensures forall id :: id in preempted ==> id in places && places[id].Preempted?
    {
      hide Listed, Counted, Streaming, Exact, Owned;
      TakenDistinct(places, incoming, deferred, taken, preempted, active);
      QueueDistinct(places, incoming, deferred, taken, preempted, active);
      CandidatesOwnNothing(places, incoming, deferred, taken, preempted, active, releasing, backend.reserved, granted);
      QueuesAre(places, incoming, deferred, taken, preempted, active);
    }

    lemma NoQueue()
      requires Valid() && incoming == deferred == taken == []
      ensures pendingCount == pendingTokens == 0
    {
      hide Listed, Streaming, Exact, Owned;
      NothingQueued(requests, incoming + deferred + taken, pendingCount, pendingTokens);
    }

    // ----- submitting

    /** Queues a request if the bounded admission queue has room; an id is used up either way. */
    method Submit(
      prompt: seq<Token>, maxNewTokens: int, priority: int, deadline: Option<real>, ignoreEos: bool, stops: seq<seq<Token>>)
      returns (r: Result<int>)
      requires Valid()
      modifies this
      ensures Valid()
      ensures r == Err(ValueError) <==> prompt == [] || maxNewTokens <= 0 || !(0 <= priority <= loop.limits.maxPriority)
      ensures r == Err(RuntimeError) <==>
                && !(prompt == [] || maxNewTokens <= 0 || !(0 <= priority <= loop.limits.maxPriority))
                && (old(pendingCount) >= loop.limits.maxQueueSize || old(pendingTokens) + |prompt| + maxNewTokens > loop.limits.maxQueueTokens)
      ensures r.Err? ==> r.error in {ValueError, RuntimeError} && places == old(places) && requests == old(requests)
      ensures r.Ok? ==>
                && r.value == old(nextId) && r.value !in old(places)
                && places == old(places)[r.value := Incoming]
                && 0 <= maxNewTokens
                && requests == old(requests)[r.value := NewRequest(Spec(r.value, backend.trusts(r.value), prompt, maxNewTokens, priority, deadline, ignoreEos, stops))]
                && incoming == old(incoming) + [r.value]
      ensures taken == old(taken) && deferred == old(deferred) && preempted == old(preempted) && active == old(active) && granted == old(granted)
      ensures r.Ok? ==> nextId == old(nextId) + 1
      ensures Leaked() == old(Leaked())
    {
      hide Listed, Counted, Streaming, Exact, Owned;
      if prompt == [] || maxNewTokens <= 0 {
        return Err(ValueError);
      }
      if !(0 <= priority <= loop.limits.maxPriority) {
        return Err(ValueError);
      }
      var id := nextId;
      NextIsNew(loop, places, requests, releasing, nextId);
      nextId := nextId + 1;
      var spec := Spec(id, backend.trusts(id), prompt, maxNewTokens, priority, deadline, ignoreEos, stops);
      if pendingCount >= loop.limits.maxQueueSize {
        return Err(RuntimeError);
      }
      if pendingTokens + DemandOf(spec) > loop.limits.maxQueueTokens {
        return Err(RuntimeError);
      }
      Enqueue(spec);
      r := Ok(id);
    }

    method Enqueue(spec: Spec)
      requires Valid() && 0 <= spec.id < nextId && spec.id !in places && spec.maxNewTokens > 0
      requires pendingCount < loop.limits.maxQueueSize && pendingTokens + DemandOf(spec) <= loop.limits.maxQueueTokens
      modifies this`pendingCount, this`pendingTokens, this`requests, this`incoming, this`places
      ensures Valid()
      ensures places == old(places)[spec.id := Incoming] && incoming == old(incoming) + [spec.id]
      ensures requests == old(requests)[spec.id := NewRequest(spec)]
    {
      hide Listed, Counted, Streaming, Exact, Owned, NewRequest;
      ListedMore(places, incoming, deferred, taken, preempted, active, spec.id);
      StreamingMore(loop, places, requests, releasing, nextId, spec);
      CountedMore(requests, incoming, deferred, taken, pendingCount, pendingTokens, spec);
      assert active - {} == active;
      OthersUnchanged(places, requests, active, releasing, backend.states, backend.reserved, granted, spec);
      pendingCount := pendingCount + 1;
      pendingTokens := pendingTokens + DemandOf(spec);
      requests := requests[spec.id := NewRequest(spec)];
      incoming := incoming + [spec.id];
      places := places[spec.id := Incoming];
    }

    // ----- candidates of an admission pass

    /** Drains both queues; the candidates come in some order of urgency. */
    method TakeCandidates()
      requires Valid() && taken == []
      modifies this`incoming, this`deferred, this`taken, this`places
      ensures Valid() && Leaked() == old(Leaked())
      ensures incoming == [] && deferred == []
      ensures multiset(taken) == multiset(old(deferred) + old(incoming))
      ensures places == Taking(old(places))
    {
      hide Listed, Counted, Streaming, Exact, Owned;
      var candidates: seq<int> :| multiset(candidates) == multiset(deferred + incoming);
      ListedTaking(places, incoming, deferred, taken, preempted, active, candidates);
      CountedOrder(requests, incoming, deferred, candidates, pendingCount, pendingTokens);
      StreamingTaking(loop, places, requests, releasing, nextId);
      OwnedTaking(places, active, releasing, backend.reserved, granted);
      assert [] + [] + candidates == candidates;
      incoming, deferred, taken := [], [], candidates;
      places := Taking(places);
    }

    /** A candidate leaves the admission queue; the queue's books cannot underflow. */
    method PendingDone() returns (underflow: bool)
      requires Valid() && taken != []
      modifies this`taken, this`pendingCount, this`pendingTokens, this`places
      ensures Valid() && Leaked() == old(Leaked()) && !underflow
      ensures taken == old(taken)[1..] && places == old(places)[old(taken)[0] := Held]
    {
      hide Listed, Counted, Streaming, Exact, Owned;
      var id := taken[0];
      HeadIsTaken(places, incoming, deferred, taken, preempted, active, requests, pendingCount, pendingTokens);
      ListedHeld(places, incoming, deferred, taken, preempted, active);
      CountedFewer(requests, incoming, deferred, taken, pendingCount, pendingTokens);
      StreamingWaits(loop, places, requests, releasing, nextId, id, Held);
      OwnedMoved(places, active, releasing, backend.reserved, granted, id, Held);
      pendingCount := pendingCount - 1;
      pendingTokens := pendingTokens - DemandOf(requests[id].spec);
      underflow := pendingCount < 0 || pendingTokens < 0;
      taken := taken[1..];
      places := places[id := Held];
    }

    /** A candidate goes back to wait for a later pass. */
    method DeferHead()
      requires Valid() && taken != [] && taken[0] !in granted
      modifies this`taken, this`deferred, this`places
      ensures Valid() && Leaked() == old(Leaked())
      ensures taken == old(taken)[1..] && deferred == old(deferred) + [old(taken)[0]]
      ensures places == old(places)[old(taken)[0] := Deferred]
    {
      hide Listed, Counted, Streaming, Exact, Owned;
      var id := taken[0];
      HeadIsTaken(places, incoming, deferred, taken, preempted, active, requests, pendingCount, pendingTokens);
      ListedDeferred(places, incoming, deferred, taken, preempted, active);
      StreamingWaits(loop, places, requests, releasing, nextId, id, Deferred);
      OwnedMoved(places, active, releasing, backend.reserved, granted, id, Deferred);
      assert incoming + (deferred + [id]) + taken[1..] == incoming + deferred + taken;
      deferred := deferred + [id];
      taken := taken[1..];
      places := places[id := Deferred];
    }

    method DeferRemaining()
      requires Valid() && forall id :: id in taken ==> id !in granted
      modifies this`taken, this`deferred, this`places
      ensures Valid() && Leaked() == old(Leaked())
      ensures taken == [] && deferred == old(deferred) + old(taken)
      ensures places.Keys == old(places).Keys && forall id :: id in places && id !in old(taken) ==> places[id] == old(places)[id]
    {
      hide ValidBut, Leaked;
      while taken != []
        invariant Valid() && Leaked() == old(Leaked()) && forall id :: id in taken ==> id !in granted && id in old(taken)
        invariant deferred + taken == old(deferred) + old(taken)
        invariant places.Keys == old(places).Keys && forall id :: id in places && id !in old(taken) ==> places[id] == old(places)[id]
        decreases |taken|
      {
        var id := taken[0];
        assert id in taken;
        Head();
        ghost var rest := taken[1..];
        assert taken == [id] + rest;
        DeferHead();
      }
    }

    // ----- ending a request

    /**
     Ends a request whose record is now `q`. With a release its resources are given back
     before the terminal event; without one they must already be back, or they leak.
     */
    method Close(id: int, q: Request, reason: Reason, release: bool, ghost pending: set<int>)
      requires ValidBut(pending) && id in places && (places[id].Held? || places[id].Active?)
      requires id in requests && q.spec == requests[id].spec && Speaks(loop, id, q)
      requires Justified(q.spec, loop.eos, q.generated, reason)
      modifies this`active, this`requests, this`releasing, this`places, this`granted
      ensures ValidBut(pending - {id})
      ensures places == old(places)[id := Ended] && active == old(active) - {id}
      ensures releasing == if release then old(releasing) + [Release(id, reason)] else old(releasing)
      ensures requests == old(requests)[id := Closed(q, reason, release)]
      ensures granted == if release then old(granted) else old(granted) - {id}
      ensures Leaked() == old(Leaked()) + if !release && id in old(granted) then {id} else {}
    {
      hide Listed, Counted, Streaming, Exact, Owned, Speaks, Closed;
      if release {
        CloseReleasing(id, q, reason, pending);
      } else {
        CloseDropping(id, q, reason, pending);
      }
    }

    method CloseReleasing(id: int, q: Request, reason: Reason, ghost pending: set<int>)
      requires ValidBut(pending) && id in places && (places[id].Held? || places[id].Active?)
      requires id in requests && q.spec == requests[id].spec && Speaks(loop, id, q)
      requires Justified(q.spec, loop.eos, q.generated, reason)
      modifies this`active, this`requests, this`releasing, this`places
      ensures ValidBut(pending - {id})
      ensures places == old(places)[id := Ended] && active == old(active) - {id}
      ensures releasing == old(releasing) + [Release(id, reason)]
      ensures requests == old(requests)[id := Closed(q, reason, true)]
    {
      hide Listed, Counted, Streaming, Exact, Owned, Speaks, RequestOk, Closed;
      StreamingHas(loop, places, requests, releasing, nextId, id);
      ClosedSpec(q, reason, true);
      assert active - {id} - (pending - {id}) == (active - pending) - {id};
      ListedEnded(places, incoming, deferred, taken, preempted, active, id);
      StreamingClosed(loop, places, requests, releasing, nextId, id, q, reason, true);
      CountedSame(requests, incoming + deferred + taken, pendingCount, pendingTokens, id, Closed(q, reason, true));
      ExactWithout(active - pending, requests, backend.states, id, Closed(q, reason, true));
      OwnedClosed(places, active, releasing, backend.reserved, granted, id, reason, true);
      Smaller(active - {id}, active);
      active := active - {id};
      releasing := releasing + [Release(id, reason)];
      requests := requests[id := Closed(q, reason, true)];
      places := places[id := Ended];
    }

    method CloseDropping(id: int, q: Request, reason: Reason, ghost pending: set<int>)
      requires ValidBut(pending) && id in places && (places[id].Held? || places[id].Active?)
      requires id in requests && q.spec == requests[id].spec && Speaks(loop, id, q)
      requires Justified(q.spec, loop.eos, q.generated, reason)
      modifies this`active, this`requests, this`places, this`granted
      ensures ValidBut(pending - {id})
      ensures places == old(places)[id := Ended] && active == old(active) - {id}
      ensures requests == old(requests)[id := Closed(q, reason, false)]
      ensures granted == old(granted) - {id}
      ensures Leaked() == old(Leaked()) + if id in old(granted) then {id} else {}
    {
      hide Listed, Counted, Streaming, Exact, Owned, Speaks, RequestOk, Closed;
      StreamingHas(loop, places, requests, releasing, nextId, id);
      ClosedSpec(q, reason, false);
      assert active - {id} - (pending - {id}) == (active - pending) - {id};
      ListedEnded(places, incoming, deferred, taken, preempted, active, id);
      StreamingClosed(loop, places, requests, releasing, nextId, id, q, reason, false);
      CountedSame(requests, incoming + deferred + taken, pendingCount, pendingTokens, id, Closed(q, reason, false));
      ExactWithout(active - pending, requests, backend.states, id, Closed(q, reason, false));
      OwnedClosed(places, active, releasing, backend.reserved, granted, id, reason, false);
      Smaller(active - {id}, active);
      active := active - {id};
      granted := granted - {id};
      requests := requests[id := Closed(q, reason, false)];
      places := places[id := Ended];
    }

    /** Ends a request as it stands. */
    method Finish(id: int, reason: Reason, release: bool, ghost pending: set<int>)
      requires ValidBut(pending) && id in places && (places[id].Held? || places[id].Active?)
      requires reason.Cancelled? || reason.Failed?
      modifies this`active, this`requests, this`releasing, this`places, this`granted
      ensures ValidBut(pending - {id})
      ensures places == old(places)[id := Ended] && active == old(active) - {id}
      ensures releasing == if release then old(releasing) + [Release(id, reason)] else old(releasing)
      ensures granted == if release then old(granted) else old(granted) - {id}
      ensures Leaked() == old(Leaked()) + if !release && id in old(granted) then {id} else {}
      ensures requests.Keys == old(requests).Keys && forall x :: x in requests && x != id ==> requests[x] == old(requests)[x]
      ensures id in requests && requests[id] == Closed(old(requests)[id], reason, release)
    {
      hide Listed, Counted, Streaming, Exact, Owned, Closed;
      StreamingHas(loop, places, requests, releasing, nextId, id);
      StandingSpeaks(loop, id, requests[id], places[id], id in ReleasingIds(releasing));
      Close(id, requests[id], reason, release, pending);
    }

    /** A background release ends: the resources are back, and only now does the handle hear of the end. */
    method CompleteRelease(i: nat)
      requires Valid() && i < |releasing|
      modifies this`requests, this`releasing, this`granted, backend`states, backend`reserved
      ensures Valid()
      ensures releasing == old(releasing)[..i] + old(releasing)[i + 1..]
      ensures var id := old(releasing)[i].id;
              && id in old(requests) && requests.Keys == old(requests).Keys
              && (forall x :: x in requests && x != id ==> requests[x] == old(requests)[x])
              && exists reason ::
                   && requests[id] == old(requests)[id].(received := old(requests)[id].received + [FinishedEvent(reason)])
                   && (reason == old(releasing)[i].reason || (reason.Failed? && !backend.reliable))
                   && Justified(requests[id].spec, loop.eos, requests[id].generated, reason)
      ensures backend.reserved == old(backend.reserved) - {old(releasing)[i].id} && Leaked() == old(Leaked())
    {
      hide Listed, Counted, Streaming, Exact, Owned;
      var r := releasing[i];
      ReleasedHas(loop, places, requests, releasing, nextId, i, active, incoming, deferred, taken, preempted);
      var ok := backend.Release(r.id);
      var reason := if r.reason.Failed? || !ok then Failed else r.reason;
      var q := requests[r.id].(received := requests[r.id].received + [FinishedEvent(reason)]);
      assert active - {} == active;
      StreamingReleased(loop, places, requests, releasing, nextId, i, reason);
      CountedSame(requests, incoming + deferred + taken, pendingCount, pendingTokens, r.id, q);
      ExactElsewhere(active, requests, old(backend.states), r.id, q);
      OwnedReleased(places, active, releasing, old(backend.reserved), granted, i);
      granted := granted - {r.id};
      requests := requests[r.id := q];
      releasing := releasing[..i] + releasing[i + 1..];
    }

    // ----- tokens

    /**
     A request takes its next token: the handle hears it, and the request ends or goes on
     as an active one.
     */
    method AcceptSample(id: int, token: Token, ghost pending: set<int>)
      requires ValidBut(pending) && id in places && id in requests
      requires id in granted
      requires places[id].Active? || (places[id].Held? && requests[id].generated == [] && |active| < loop.limits.maxActive)
      requires Follows(loop.sampler, requests[id], token)
      requires ExactState(requests[id].spec, requests[id].generated + [token], backend.states)
      modifies this`active, this`requests, this`releasing, this`places, this`granted
      ensures ValidBut(pending - {id}) && Leaked() == old(Leaked()) && granted == old(granted)
      ensures places == old(places)[id := if id in active then Active else Ended] && active <= old(active) + {id}
      ensures old(active) - {id} <= active
      ensures requests.Keys == old(requests).Keys && forall x :: x in requests && x != id ==> requests[x] == old(requests)[x]
      ensures id in requests && TookToken(loop, id, old(requests)[id], requests[id], token, old(releasing), releasing, id in active)
    {
      hide Listed, Counted, Streaming, Exact, Owned, RequestOk, Speaks, ExactState, Follows, FinishReason,
           Stopped, Justified, Unended, Solo, TookToken;
      var q := Spoken(requests[id], token);
      StreamingHas(loop, places, requests, releasing, nextId, id);
      SpeaksNext(loop, id, requests[id], places[id], id in ReleasingIds(releasing), token);
      var reason := FinishReason(q.spec, loop.eos, q.generated);
      TokenTaken(loop, id, requests[id], token, releasing);
      if reason.Some? {
        Close(id, q, reason.value, true, pending);
      } else {
        Continue(id, q, pending);
      }
    }

    method Continue(id: int, q: Request, ghost pending: set<int>)
      requires ValidBut(pending) && id in places && id in requests && q.spec == requests[id].spec && id in granted
      requires places[id].Active? || (places[id].Held? && |active| < loop.limits.maxActive)
      requires RequestOk(loop, id, q, Active, false) && ExactState(q.spec, q.generated, backend.states)
      modifies this`active, this`requests, this`places
      ensures ValidBut(pending - {id}) && Leaked() == old(Leaked())
      ensures places == old(places)[id := Active] && active == old(active) + {id}
      ensures requests == old(requests)[id := q]
    {
      hide Listed, Counted, Streaming, Exact, Owned, RequestOk, ExactState;
      StreamingHas(loop, places, requests, releasing, nextId, id);
      ListedActive(places, incoming, deferred, taken, preempted, active, id);
      MoreActive(active, id);
      StreamingMoved(loop, places, requests, releasing, nextId, id, q, Active);
      CountedSame(requests, incoming + deferred + taken, pendingCount, pendingTokens, id, q);
      assert (active + {id}) - (pending - {id}) == (active - pending) + {id};
      ExactWith(active - pending, requests, backend.states, id, q, loop);
      OwnedActive(places, active, releasing, backend.reserved, granted, id);
      active := active + {id};
      requests := requests[id := q];
      places := places[id := Active];
    }

    // ----- preemption and recovery

    /** Asks the backend to take a request's state and pages away; if it does, the request waits to be recovered. */
    method SetAside(id: int, q: Request, ghost pending: set<int>) returns (ok: bool)
      requires ValidBut(pending) && id in active && id in places && id in requests
      requires q.spec == requests[id].spec && RequestOk(loop, id, q, Preempted, false)
      modifies this`active, this`requests, this`places, this`granted, this`preempted, backend`states, backend`reserved
      ensures ValidBut(pending - {id}) || !ok
      ensures ok ==>
                && places == old(places)[id := Preempted] && active == old(active) - {id} && preempted == old(preempted) + [id]
                && requests == old(requests)[id := q] && granted == old(granted) - {id} && Leaked() == old(Leaked())
                && backend.states == old(backend.states) - {id}
      ensures !ok ==> unchanged(this) && backend.states == old(backend.states) && backend.reserved == old(backend.reserved)
    {
      hide Listed, Counted, Streaming, Exact, Owned, RequestOk;
      MayWaitAside(id, q, pending);
      ok := backend.Preempt(id);
      if ok {
        active := active - {id};
        requests := requests[id := q];
        preempted := preempted + [id];
        granted := granted - {id};
        places := places[id := Preempted];
      }
    }

    /** The books after that. */
    lemma MayWaitAside(id: int, q: Request, pending: set<int>)
      requires ValidBut(pending) && id in active && id in places && id in requests
      requires q.spec == requests[id].spec && RequestOk(loop, id, q, Preempted, false)
      ensures Listed(places[id := Preempted], incoming, deferred, taken, preempted + [id], active - {id}) && |active - {id}| <= loop.limits.maxActive
      ensures Counted(requests[id := q], incoming + deferred + taken, pendingCount, pendingTokens)
      ensures Streaming(loop, places[id := Preempted], requests[id := q], releasing, nextId)
      ensures Exact(active - {id} - (pending - {id}), requests[id := q], backend.states - {id})
      ensures Owned(places[id := Preempted], active - {id}, releasing, backend.reserved - {id}, granted - {id})
      ensures (backend.reserved - {id}) - (granted - {id}) == Leaked()
    {
      hide Listed, Counted, Streaming, Exact, Owned, RequestOk;
      ListedSetAside(places, incoming, deferred, taken, preempted, active, id);
      StreamingHas(loop, places, requests, releasing, nextId, id);
      StreamingMoved(loop, places, requests, releasing, nextId, id, q, Preempted);
      CountedSame(requests, incoming + deferred + taken, pendingCount, pendingTokens, id, q);
      assert active - {id} - (pending - {id}) == (active - pending) - {id};
      ExactSetAside(active - pending, requests, backend.states, id, q);
      OwnedSetAside(places, active, releasing, backend.reserved, granted, id);
      Smaller(active - {id}, active);
    }

    /** Makes room for a more urgent candidate at the cost of one active request. */
    method TryPreemptFor(candidate: int) returns (made: bool)
      requires Valid() && candidate in requests
      modifies this`active, this`requests, this`places, this`granted, this`preempted, this`releasing, backend`states, backend`reserved
      ensures Valid() && Leaked() == old(Leaked())
      ensures !made ==> unchanged(this) && backend.states == old(backend.states) && backend.reserved == old(backend.reserved)
      ensures made <==> Eligible(old(active), old(requests), loop.limits, candidate)
      ensures forall x :: x in old(requests) ==> x in requests && requests[x].spec == old(requests)[x].spec
      ensures made ==> exists victim ::
                         && Victim(old(active), old(requests), old(places), candidate, victim)
                         && LeastUrgent(old(active), old(requests), loop.limits, candidate, victim)
      ensures granted <= old(granted) && |active| == |old(active)| - (if made then 1 else 0)
    {
      hide Listed, Counted, Streaming, Exact, Owned, RequestOk;
      if loop.limits.maxPreemptions == 0 {
        return false;
      }
      ActiveAreKnown(places, incoming, deferred, taken, preempted, active, loop, requests, releasing, nextId);
      var urgent := requests[candidate].spec;
      var victims := set id | id in active && MayFall(urgent, requests[id], loop.limits);
      if victims == {} {
        assert forall id :: id in active ==> id !in victims;
        return false;
      }
      OwnIds(loop, places, requests, releasing, nextId);
      ghost var first := FirstToFall(requests, victims);
      var victim :| victim in victims && forall other :: other in victims && other != victim ==> FallsBefore(requests[victim], requests[other]);
      FirstIsLeast(requests, loop.limits, active, candidate, victims, victim);
      PushAside(victim);
      made := true;
      assert Victim(old(active), old(requests), old(places), candidate, victim);
    }

    /** Preempts one active request; if the backend cannot, the request fails. */
    method PushAside(victim: int)
      requires Valid() && victim in active && victim in requests && requests[victim].preemptions < loop.limits.maxPreemptions
      modifies this`active, this`requests, this`places, this`granted, this`preempted, this`releasing, backend`states, backend`reserved
      ensures Valid() && Leaked() == old(Leaked())
      ensures granted <= old(granted) && active == old(active) - {victim} && |active| == |old(active)| - 1
      ensures forall x :: x in old(requests) ==> x in requests && requests[x].spec == old(requests)[x].spec
      ensures victim in places && (places[victim].Preempted? || places[victim].Ended?)
      ensures places == old(places)[victim := places[victim]]
    {
      hide Listed, Counted, Streaming, Exact, Owned, RequestOk;
      ActiveAreKnown(places, incoming, deferred, taken, preempted, active, loop, requests, releasing, nextId);
      StreamingHas(loop, places, requests, releasing, nextId, victim);
      var q := requests[victim].(preemptions := requests[victim].preemptions + 1);
      MayBeSetAside(loop, victim, requests[victim], places[victim], victim in ReleasingIds(releasing), q);
      Smaller({victim}, active);
      assert {} - {victim} == {};
      var ok := SetAside(victim, q, {});
      if !ok {
        Finish(victim, Failed, true, {});
      }
    }

    /** What a preemption did: one strictly less urgent active request, preempted less often than allowed, left. */
    ghost predicate Victim(was: set<int>, asked: Requests, before: Places, candidate: int, victim: int)
      reads this
    {
      && victim in was && victim in asked && candidate in asked
      && StrictlyMoreUrgent(asked[candidate].spec, asked[victim].spec)
      && asked[victim].preemptions < loop.limits.maxPreemptions
      && active == was - {victim}
      && victim in places && (places[victim].Preempted? || places[victim].Ended?)
      && places == before[victim := places[victim]]
    }

    /** The longest waiting preempted request comes into the loop's hands. */
    method PopPreempted() returns (id: int)
      requires Valid() && preempted != []
      modifies this`preempted, this`places
      ensures Valid() && Leaked() == old(Leaked())
      ensures id == old(preempted)[0] && preempted == old(preempted)[1..] && id in places && places == old(places)[id := Held]
      ensures id in requests && requests[id].generated != [] && id !in granted && old(places)[id].Preempted?
    {
      hide Listed, Counted, Streaming, Exact, Owned, RequestOk;
      id := preempted[0];
      ListedPopped(places, incoming, deferred, taken, preempted, active);
      StreamingHas(loop, places, requests, releasing, nextId, id);
      PoppedMayBeHeld(loop, id, requests[id], places[id], id in ReleasingIds(releasing));
      StreamingMoved(loop, places, requests, releasing, nextId, id, requests[id], Held);
      PreemptedOwnsNothing(places, active, releasing, backend.reserved, granted, id);
      OwnedMoved(places, active, releasing, backend.reserved, granted, id, Held);
      preempted := preempted[1..];
      places := places[id := Held];
    }

    /** It goes on waiting. */
    method PutBack(id: int)
      requires Valid() && id in places && places[id].Held? && id in requests && requests[id].generated != [] && id !in granted
      modifies this`preempted, this`places
      ensures Valid() && Leaked() == old(Leaked())
      ensures preempted == old(preempted) + [id] && places == old(places)[id := Preempted]
    {
      hide Listed, Counted, Streaming, Exact, Owned, RequestOk;
      ListedSetAside(places, incoming, deferred, taken, preempted, active, id);
      StreamingHas(loop, places, requests, releasing, nextId, id);
      HeldMayWait(loop, id, requests[id], places[id], id in ReleasingIds(releasing));
      StreamingMoved(loop, places, requests, releasing, nextId, id, requests[id], Preempted);
      ActiveAreKnown(places, incoming, deferred, taken, preempted, active, loop, requests, releasing, nextId);
      assert active - {id} == active;
      OwnedMoved(places, active, releasing, backend.reserved, granted, id, Preempted);
      preempted := preempted + [id];
      places := places[id := Preempted];
    }

    /** Recomputes a held request's state from its prompt and its own tokens, and lets it go on. */
    method Recover(id: int) returns (r: Result<Decision>)
      requires Valid() && id in places && places[id].Held? && id in requests && requests[id].generated != [] && id !in granted
      requires |active| < loop.limits.maxActive
      modifies this`active, this`places, this`requests, this`granted, backend`states, backend`reserved, backend`replayed
      ensures Valid() && Leaked() == old(Leaked()) && requests == old(requests)
      ensures r == Ok(Accept) ==>
                && places == old(places)[id := Active] && active == old(active) + {id} && granted == old(granted) + {id}
                && id in backend.states && backend.states[id] == Exactly(requests[id].spec, requests[id].generated)
      ensures r != Ok(Accept) ==> places == old(places) && active == old(active) && granted == old(granted)
      ensures backend.replayed == old(backend.replayed) + [id]
    {
      hide Listed, Counted, Streaming, Exact, Owned, RequestOk;
      StreamingHas(loop, places, requests, releasing, nextId, id);
      ActiveAreKnown(places, incoming, deferred, taken, preempted, active, loop, requests, releasing, nextId);
      HeldMayGoOn(loop, id, requests[id], places[id], id in ReleasingIds(releasing));
      assert active - {} == active;
      ExactElsewhere(active, requests, backend.states, id, requests[id]);
      ExactAfter(active, requests, backend.states, id, Exactly(requests[id].spec, requests[id].generated));
      OwnedRecovering(places, active, releasing, backend.reserved, granted, id);
      var q := requests[id];
      r := backend.Recover(q.spec, q.generated);
      if r == Ok(Accept) {
        granted := granted + {id};
        Continue(id, q, {});
        assert {} - {id} == {};
      }
    }

    /**
     Tries to bring preempted requests back. Each is visited once, oldest first: those
     asked to recover are asked in that order, and those that go on waiting keep it.
     */
    method RecoverPreempted()
      requires Valid()
      modifies this`active, this`requests, this`places, this`granted, this`preempted, this`releasing
      modifies backend`states, backend`reserved, backend`replayed
      ensures Valid() && Leaked() == old(Leaked())
      ensures old(active) <= active
      ensures forall id :: id in old(places) && !old(places)[id].Preempted? ==> id in places && places[id] == old(places)[id]
      ensures forall id :: id in places && places[id].Held? ==> id in old(places) && old(places)[id].Held?
      ensures preempted == Those(old(preempted), set id | id in places && places[id].Preempted?)
      ensures exists asked: set<int> :: backend.replayed == old(backend.replayed) + Those(old(preempted), asked)
    {
      hide ValidBut, Leaked, RequestOk;
      ghost var before, queue, first := places, preempted, backend.replayed;
      ghost var asked: set<int>, waiting: set<int> := {}, {};
      Queues();
      assert queue[0..] == queue;
      for i := 0 to |preempted|
        invariant Valid() && Leaked() == old(Leaked()) && Distinct(queue)
        invariant preempted == queue[i..] + Those(queue[..i], waiting)
        invariant backend.replayed == first + Those(queue[..i], asked)
        invariant old(active) <= active
        invariant forall id :: id in before && !before[id].Preempted? ==> id in places && places[id] == before[id]
        invariant forall id :: id in places ==> id in before && (places[id].Held? ==> before[id].Held?)
        invariant forall id :: id in queue ==> id in before && before[id].Preempted? && id in places
        invariant forall id :: id in queue[..i] ==> (id in waiting <==> places[id].Preempted?)
      {
        var id := queue[i];
        assert id in queue && queue[i..] == [id] + queue[i + 1..];
        assert preempted[0] == id && preempted[1..] == queue[i + 1..] + Those(queue[..i], waiting);
        assert id !in queue[..i];
        ghost var more := RecoverNext();
        ThoseNext(queue, i, waiting, places[id].Preempted?);
        ThoseNext(queue, i, asked, more);
        waiting := if places[id].Preempted? then waiting + {id} else waiting - {id};
        asked := if more then asked + {id} else asked - {id};
      }
      assert queue[..|queue|] == queue;
      ThoseSame(queue, waiting, set id | id in places && places[id].Preempted?);
    }

    /** One visit of that pass. */
    method RecoverNext() returns (ghost asked: bool)
      requires Valid() && preempted != []
      modifies this`active, this`requests, this`places, this`granted, this`preempted, this`releasing
      modifies backend`states, backend`reserved, backend`replayed
      ensures Valid() && Leaked() == old(Leaked())
      ensures old(active) <= active
      ensures var id := old(preempted)[0];
              && id in places && !places[id].Held? && places == old(places)[id := places[id]]
              && preempted == old(preempted)[1..] + (if places[id].Preempted? then [id] else [])
              && backend.replayed == old(backend.replayed) + if asked then [id] else []
    {
      hide ValidBut, Leaked;
      var id := PopPreempted();
      ghost var held, was, replayed := places, old(places), backend.replayed;
      Settle(id);
      asked := backend.replayed != replayed;
      Overwritten(was, held, places, id);
    }

    /** A request in hand ends, waits again, or goes on from an exact state. */
    method Settle(id: int)
      requires Valid() && id in places && places[id].Held? && id in requests && requests[id].generated != [] && id !in granted
      modifies this`active, this`requests, this`places, this`granted, this`preempted, this`releasing
      modifies backend`states, backend`reserved, backend`replayed
      ensures Valid() && Leaked() == old(Leaked())
      ensures backend.replayed == old(backend.replayed) || backend.replayed == old(backend.replayed) + [id]
      ensures old(active) <= active
      ensures id in places && !places[id].Held? && places == old(places)[id := places[id]]
      ensures preempted == old(preempted) + if places[id].Preempted? then [id] else []
    {
      hide ValidBut, Leaked, RequestOk;
      assert {} - {id} == {};
      Actives();
      assert active - {id} == active;
      var cancelled: bool := *;
      var expired: bool := *;
      if cancelled || (requests[id].spec.deadline.Some? && expired) {
        Finish(id, if cancelled then Cancelled else Failed, false, {});
      } else if |active| >= loop.limits.maxActive {
        PutBack(id);
      } else {
        Resume(id);
      }
    }

    /** The recovery of a request in hand, whatever the backend says to it. */
    method Resume(id: int)
      requires Valid() && id in places && places[id].Held? && id in requests && requests[id].generated != [] && id !in granted
      requires |active| < loop.limits.maxActive && id !in active
      modifies this`active, this`requests, this`places, this`granted, this`preempted, this`releasing
      modifies backend`states, backend`reserved, backend`replayed
      ensures Valid() && Leaked() == old(Leaked())
      ensures backend.replayed == old(backend.replayed) || backend.replayed == old(backend.replayed) + [id]
      ensures old(active) <= active
      ensures id in places && !places[id].Held? && places == old(places)[id := places[id]]
      ensures preempted == old(preempted) + if places[id].Preempted? then [id] else []
    {
      hide ValidBut, Leaked, RequestOk;
      assert {} - {id} == {} && active - {id} == active;
      var recovered := Recover(id);
      if recovered.Ok? && recovered.value.Defer? {
        PutBack(id);
      } else if recovered != Ok(Accept) {
        Finish(id, Failed, true, {});
      }
    }

    // ----- admission

    /** The backend's word on the next candidate; an acceptance grants it resources. */
    method AdmissionDecision(id: int) returns (d: Decision)
      requires Valid() && id in places && places[id].Taken?
      modifies this`granted, backend`reserved, backend`answered
      ensures Valid() && Leaked() == old(Leaked())
      ensures granted == old(granted) + if d.Accept? then {id} else {}
      ensures d == backend.answers(id, |old(backend.answered)|) && backend.answered == old(backend.answered) + [Answer(id, d)]
    {
      hide Listed, Counted, Streaming, Exact, Owned;
      OwnedAsking(places, active, releasing, backend.reserved, granted, id);
      d := backend.Admit(id);
      granted := granted + if d.Accept? then {id} else {};
    }

    /** Ends a candidate before it started; whatever it was granted is not given back. */
    method Refuse(reason: Reason)
      requires Valid() && taken != [] && (reason.Cancelled? || reason.Failed?)
      modifies this`taken, this`pendingCount, this`pendingTokens, this`active, this`requests, this`releasing, this`places, this`granted
      ensures Valid()
      ensures taken == old(taken)[1..] && active == old(active) && granted == old(granted) - {old(taken)[0]}
      ensures Leaked() == old(Leaked()) + if old(taken)[0] in old(granted) then {old(taken)[0]} else {}
      ensures old(taken)[0] in places && places == old(places)[old(taken)[0] := Ended]
      ensures releasing == old(releasing)
      ensures old(taken)[0] in old(requests) && requests.Keys == old(requests).Keys
      ensures forall x :: x in requests ==>
                requests[x] == if x == old(taken)[0] then Closed(old(requests)[x], reason, false) else old(requests)[x]
    {
      hide ValidBut, Leaked, Closed;
      var id := taken[0];
      Head();
      var underflow := PendingDone();
      assert active - {id} == active && {} - {id} == {};
      Finish(id, reason, false, {});
    }

    /** A candidate has its first token, and is active unless that ended it. */
    ghost predicate Started(was: Request, id: int)
      reads this
    {
      && id in requests && requests[id].spec == was.spec && requests[id].preemptions == was.preemptions
      && requests[id].generated == [loop.sampler(id, was.spec.prompt, was.spec.prompt, 0)]
      && (id in active <==> !Stopped(was.spec, loop.eos, requests[id].generated) && 1 < was.spec.maxNewTokens)
    }

    /** Prefills an accepted candidate; if it survives that, it is active with its first token. */
    method Start()
      requires Valid() && taken != [] && taken[0] in granted && |active| < loop.limits.maxActive
      modifies this`taken, this`pendingCount, this`pendingTokens, this`active, this`requests, this`releasing, this`places, this`granted
      modifies backend`states, backend`reserved
      ensures Valid() && Leaked() == old(Leaked())
      ensures taken == old(taken)[1..] && old(active) <= active <= old(active) + {old(taken)[0]}
      ensures old(granted) - {old(taken)[0]} <= granted <= old(granted)
      ensures var id := old(taken)[0]; id in places && (places[id].Active? || places[id].Ended?) && places == old(places)[id := places[id]]
      ensures requests.Keys == old(requests).Keys && forall x :: x in requests && x != old(taken)[0] ==> requests[x] == old(requests)[x]
      ensures var id := old(taken)[0];
              id in old(requests) && (backend.reliable && old(requests)[id].spec.deadline.None? ==> Started(old(requests)[id], id))
    {
      hide ValidBut, Leaked, Started;
      var id := taken[0];
      Head();
      ghost var was := places;
      var underflow := PendingDone();
      ghost var held := places;
      Prefill(id);
      Overwritten(was, held, places, id);
    }

    method Prefill(id: int)
      requires Valid() && id in places && places[id].Held? && id in granted && id !in active && |active| < loop.limits.maxActive
      requires id in requests && requests[id].generated == [] && requests[id].spec.id == id
      modifies this`active, this`requests, this`releasing, this`places, this`granted, backend`states, backend`reserved
      ensures Valid() && Leaked() == old(Leaked())
      ensures old(active) <= active <= old(active) + {id} && old(granted) - {id} <= granted <= old(granted)
      ensures id in places && (places[id].Active? || places[id].Ended?) && places == old(places)[id := places[id]]
      ensures requests.Keys == old(requests).Keys && forall x :: x in requests && x != id ==> requests[x] == old(requests)[x]
      ensures backend.reliable && old(requests)[id].spec.deadline.None? ==> Started(old(requests)[id], id)
    {
      hide ValidBut, Leaked, Solo, ExactState, Follows, FinishReason, Closed;
      assert {} - {id} == {} && active - {id} == active;
      var sample := Fill(id);
      var expired: bool := *;
      if sample.Err? || (requests[id].spec.deadline.Some? && expired) {
        Finish(id, Failed, true, {});
      } else {
        AcceptSample(id, sample.value, {});
      }
    }

    /** The backend's part of a prefill. */
    method Fill(id: int) returns (sample: Result<Token>)
      requires Valid() && id in places && places[id].Held? && id in granted && id !in active
      requires id in requests && requests[id].generated == [] && requests[id].spec.id == id
      modifies this`granted, backend`states, backend`reserved
      ensures Valid() && Leaked() == old(Leaked())
      ensures granted == if sample.Ok? then old(granted) else old(granted) - {id}
      ensures sample.Ok? ==>
                && sample.value == loop.sampler(id, requests[id].spec.prompt, requests[id].spec.prompt, 0)
                && Follows(loop.sampler, requests[id], sample.value)
                && ExactState(requests[id].spec, requests[id].generated + [sample.value], backend.states)
      ensures backend.reliable ==> sample.Ok?
    {
      hide Listed, Counted, Streaming, Exact, Owned, Solo, ExactState, Follows;
      var q := requests[id];
      assert active - {} == active;
      ExactElsewhere(active, requests, backend.states, id, q);
      ExactAfter(active, requests, backend.states, id, Kept(q.spec.prompt, |q.spec.prompt|));
      assert requests[id := q] == requests;
      OwnedLost(places, active, releasing, backend.reserved, granted, id);
      sample := backend.Prefill(q.spec);
      if sample.Err? {
        granted := granted - {id};
      } else {
        FirstFollows(loop.sampler, q, backend.states);
      }
    }

    /**
     One candidate of an admission pass. The backend may be asked about it once, or
     twice; it leaks exactly if the answers are a deferral and then an acceptance.
     */
    method AdmitHead(slots: nat, budget: Option<nat>, cancelled: bool) returns (slots': nat, budget': Option<nat>)
      requires Valid() && taken != [] && slots + |active| <= loop.limits.maxActive
      requires NoneGranted(taken, granted)
      modifies this`taken, this`deferred, this`preempted, this`pendingCount, this`pendingTokens, this`active, this`requests, this`releasing
      modifies this`places, this`granted, backend`states, backend`reserved, backend`answered
      ensures Valid() && slots' + |active| <= loop.limits.maxActive
      ensures |taken| < |old(taken)| && NoneGranted(taken, granted) && forall id :: id in taken ==> id in old(taken)[1..]
      ensures Asks(backend.answers, old(backend.answered), backend.answered, old(taken)[0])
      ensures Leaked() == old(Leaked()) + Misjudged(backend.answered[|old(backend.answered)|..])
      ensures old(taken)[0] in old(requests)
      ensures budget.None? ==> budget'.None?
      ensures budget.Some? ==>
                var n := |old(requests)[old(taken)[0]].spec.prompt|;
                && (budget' == budget || budget' == Some(Max(0, budget.value - n)))
                && (backend.answered != old(backend.answered) ==>
                      budget' == Some(Max(0, budget.value - n)) && (n <= budget.value || budget.value == loop.limits.maxStepTokens))
      ensures slots > 0 && budget.None? && !cancelled && old(requests)[old(taken)[0]].spec.deadline.None? ==>
                var id, n := old(taken)[0], |old(backend.answered)|;
                && backend.answered == old(backend.answered) + Asked(backend.answers, id, n, Eligible(old(active), old(requests), loop.limits, id))
                && (backend.answers(id, n).Accept? ==>
                      && deferred == old(deferred) && old(active) <= active <= old(active) + {id}
                      && (backend.reliable ==> Started(old(requests)[id], id)))
    {
      hide ValidBut, Leaked, Eligible, Misjudged, Started, Asked;
      slots', budget' := slots, budget;
      var id := taken[0];
      assert taken == [id] + taken[1..];
      NothingAsked(backend.answers, backend.answered, id);
      Head();
      if slots <= 0 {
        var room := TryPreemptFor(id);
        if !room {
          DeferRemaining();
          return;
        }
        slots' := slots' + 1;
      }
      Head();
      var spec := requests[id].spec;
      if budget.Some? && |spec.prompt| > budget.value && (active != {} || budget.value != loop.limits.maxStepTokens) {
        DeferRemaining();
        return;
      }
      budget' := if budget.None? then None else Some(Max(0, budget.value - |spec.prompt|));
      var expired: bool := *;
      if cancelled || (spec.deadline.Some? && expired) {
        Refuse(if cancelled then Cancelled else Failed);
      } else {
        ghost var log, eligible := backend.answered, Eligible(active, requests, loop.limits, id);
        slots' := Decide(id, slots');
        MisjudgedAsked(backend.answers, log, id, eligible);
      }
    }

    /** Asks the backend about the next candidate. */
    method Decide(id: int, slots: nat) returns (slots': nat)
      requires Valid() && taken != [] && taken[0] == id && id in requests && slots > 0 && slots + |active| <= loop.limits.maxActive
      requires NoneGranted(taken, granted)
      modifies this`taken, this`deferred, this`preempted, this`pendingCount, this`pendingTokens, this`active, this`requests, this`releasing
      modifies this`places, this`granted, backend`states, backend`reserved, backend`answered
      ensures Valid() && slots' + |active| <= loop.limits.maxActive
      ensures taken == old(taken)[1..] && NoneGranted(taken, granted)
      ensures Verdict(backend.answers, old(backend.answered), backend.answered, id, Eligible(old(active), old(requests), loop.limits, id),
                      old(Leaked()), Leaked())
      ensures backend.answers(id, |old(backend.answered)|).Accept? ==>
                && deferred == old(deferred) && old(active) <= active <= old(active) + {id}
                && (backend.reliable && old(requests)[id].spec.deadline.None? ==> Started(old(requests)[id], id))
    {
      hide ValidBut, Leaked, Started, Eligible, Verdict, NoneGranted;
      Head();
      NoneGrantedRest(taken, granted);
      ghost var before, eligible, leaked := backend.answered, Eligible(active, requests, loop.limits, id), Leaked();
      var d := AdmissionDecision(id);
      if d.Accept? {
        StartAccepted(id);
        VerdictOnce(backend.answers, before, id, eligible, leaked);
        slots' := slots - 1;
      } else {
        slots' := NotAdmitted(id, slots, d);
        VerdictTwice(backend.answers, before, id, eligible, leaked);
      }
    }

    method StartAccepted(id: int)
      requires Valid() && taken != [] && taken[0] == id && id in requests && id in granted && |active| < loop.limits.maxActive
      requires NoneGranted(taken[1..], granted)
      modifies this`taken, this`pendingCount, this`pendingTokens, this`active, this`requests, this`releasing, this`places, this`granted
      modifies backend`states, backend`reserved
      ensures Valid() && Leaked() == old(Leaked()) && |active| <= |old(active)| + 1 && old(active) <= active <= old(active) + {id}
      ensures taken == old(taken)[1..] && NoneGranted(taken, granted)
      ensures backend.reliable && old(requests)[id].spec.deadline.None? ==> Started(old(requests)[id], id)
    {
      hide ValidBut, Leaked, Started;
      Head();
      Start();
      MoreActive(old(active), id);
      Smaller(active, old(active) + {id});
    }

    /**
     A candidate the backend did not accept. If it was deferred and some active request
     may be pushed aside for it, that happens and the backend is asked again. An
     acceptance is then taken for a refusal: the request ends, and what it was just
     granted is never given back.
     */
    method NotAdmitted(id: int, slots: nat, first: Decision) returns (slots': nat)
      requires Valid() && taken != [] && taken[0] == id && !first.Accept? && slots + |active| <= loop.limits.maxActive
      requires NoneGranted(taken, granted)
      modifies this`taken, this`deferred, this`preempted, this`pendingCount, this`pendingTokens, this`active, this`requests, this`releasing
      modifies this`places, this`granted, backend`states, backend`reserved, backend`answered
      ensures Valid() && slots' + |active| <= loop.limits.maxActive
      ensures taken == old(taken)[1..] && NoneGranted(taken, granted)
      ensures var again := first.Defer? && Eligible(old(active), old(requests), loop.limits, id);
              var last := if again then backend.answers(id, |old(backend.answered)|) else first;
              && backend.answered == old(backend.answered) + (if again then [Answer(id, last)] else [])
              && id in places && (if last.Defer? then places[id].Deferred? else places[id].Ended?)
              && (again ==> SomebodyGone(old(active), active))
              && Leaked() == old(Leaked()) + if last.Accept? then {id} else {}
    {
      hide ValidBut, Leaked, Victim, Eligible;
      slots' := slots;
      Head();
      assert taken == [id] + taken[1..];
      var d := first;
      if d.Defer? {
        var room := TryPreemptFor(id);
        if room {
          slots' := slots' + 1;
          SomebodyLeft(old(active), active);
          Head();
          d := AdmissionDecision(id);
        }
      }
      if d.Defer? {
        DeferHead();
      } else {
        Refuse(Failed);
      }
    }

    /**
     One admission pass. It leaks exactly the candidates whose answers in this pass were
     a deferral and then an acceptance.
     */
    method Admit(tokenBudget: Option<nat>)
      requires Valid() && taken == []
      modifies this`incoming, this`taken, this`deferred, this`preempted, this`pendingCount, this`pendingTokens, this`active
      modifies this`requests, this`releasing, this`places, this`granted, backend
      ensures Valid() && taken == []
      ensures old(backend.answered) <= backend.answered
      ensures Leaked() == old(Leaked()) + Misjudged(backend.answered[|old(backend.answered)|..])
      ensures forall a :: a in backend.answered[|old(backend.answered)|..] ==>
                a.id in old(places) && (old(places)[a.id].Incoming? || old(places)[a.id].Deferred?)
    {
      hide ValidBut, Leaked, Misjudged, Asks, Eligible, Started;
      Actives();
      var slots: nat := loop.limits.maxActive - |active|;
      var budget := tokenBudget;
      Queues();
      ghost var candidates, first := deferred + incoming, backend.answered;
      TakeCandidates();
      SameMembers(taken, candidates);
      Queues();
      NobodyMisjudged();
      assert first[|first|..] == [];
      while taken != []
        invariant Valid() && slots + |active| <= loop.limits.maxActive
        invariant Distinct(taken) && NoneGranted(taken, granted) && forall id :: id in taken ==> id in candidates
        invariant first <= backend.answered
        invariant forall a :: a in backend.answered[|first|..] ==> a.id in candidates && a.id !in taken
        invariant Leaked() == old(Leaked()) + Misjudged(backend.answered[|first|..])
        decreases |taken|
      {
        ghost var before, rest := backend.answered, taken[1..];
        var head := taken[0];
        assert taken == [head] + rest && head in taken;
        var cancelled: bool := *;
        slots, budget := AdmitHead(slots, budget, cancelled);
        AsksMore(backend.answers, first, before, backend.answered, head);
        Queues();
        MisjudgedJoin(before[|first|..], backend.answered[|before|..]);
      }
      RecoverPreempted();
    }

    // ----- decoding

    /** The backend has computed the request's next token, and its state is one step ahead. */
    ghost predicate StepReady(id: int, token: Token)
      reads this, backend
    {
      && id in requests && id in places && id in active && places[id].Active? && id in granted && requests[id].spec.id == id
      && Follows(loop.sampler, requests[id], token)
      && ExactState(requests[id].spec, requests[id].generated + [token], backend.states)
    }

    /** A decoded token reaches its request; past the deadline it does not, and the request ends. */
    method AcceptDecodeSample(id: int, token: Token, ghost pending: set<int>) returns (late: bool)
      requires ValidBut(pending) && StepReady(id, token)
      modifies this`active, this`requests, this`releasing, this`places, this`granted
      ensures ValidBut(pending - {id}) && Leaked() == old(Leaked()) && granted == old(granted)
      ensures old(active) - {id} <= active <= old(active)
      ensures id in places && places == old(places)[id := places[id]]
      ensures requests.Keys == old(requests).Keys && forall x :: x in requests && x != id ==> requests[x] == old(requests)[x]
      ensures !late ==> requests[id].generated == old(requests)[id].generated + [token]
      ensures late ==>
                && old(requests)[id].spec.deadline.Some? && places[id].Ended?
                && requests[id].generated == old(requests)[id].generated && requests[id].received == old(requests)[id].received
    {
      hide Listed, Counted, Streaming, Exact, Owned, Follows, ExactState;
      var expired: bool := *;
      late := requests[id].spec.deadline.Some? && expired;
      if late {
        Finish(id, Failed, true, pending);
      } else {
        AcceptSample(id, token, pending);
      }
    }

    /** A request whose decode failed is set aside if that can be recovered from, else it fails. */
    method SuspendOrFail(id: int, ghost pending: set<int>)
      requires ValidBut(pending) && id in active && id in places && id in requests && places[id].Active?
      modifies this`active, this`requests, this`releasing, this`places, this`granted, this`preempted, backend`states, backend`reserved
      ensures ValidBut(pending - {id}) && Leaked() == old(Leaked()) && active == old(active) - {id}
      ensures old(granted) - {id} <= granted
      ensures id in places && (places[id].Preempted? || places[id].Ended?) && places == old(places)[id := places[id]]
      ensures requests.Keys == old(requests).Keys && forall x :: x in requests && x != id ==> requests[x] == old(requests)[x]
      ensures requests[id].generated == old(requests)[id].generated
      ensures forall x :: x in old(backend.states) && x != id ==> x in backend.states && backend.states[x] == old(backend.states)[x]
    {
      hide Listed, Counted, Streaming, Exact, Owned, RequestOk;
      StreamingHas(loop, places, requests, releasing, nextId, id);
      MayBeSetAside(loop, id, requests[id], places[id], id in ReleasingIds(releasing), requests[id]);
      var recoverable: bool := *;
      var suspended := false;
      if recoverable {
        suspended := SetAside(id, requests[id], pending);
      }
      if !suspended {
        Finish(id, Failed, true, pending);
      }
    }

    /**
     Decodes one batch of active requests. Each row the backend gave a token has it,
     unless its deadline passed; the other rows and all other requests generate nothing.
     */
    method DecodeOnce() returns (rows: seq<Row>, reply: Reply)
      requires Valid()
      modifies this`active, this`requests, this`releasing, this`places, this`granted, this`preempted, backend`states, backend`reserved
      ensures Valid() && Leaked() == old(Leaked())
      ensures active <= old(active)
      ensures UniqueRows(rows) && |rows| <= Min(loop.limits.maxBatch, loop.limits.maxStepTokens)
      ensures forall i :: 0 <= i < |rows| ==>
                var id := rows[i].spec.id;
                id in old(active) && id in old(requests) && rows[i] == Row(old(requests)[id].spec, old(requests)[id].generated)
      ensures requests.Keys == old(requests).Keys && forall id :: id in requests && id !in Ids(rows) ==> requests[id] == old(requests)[id]
      ensures forall i :: 0 <= i < |rows| ==>
                var id := rows[i].spec.id; id in requests && Took(rows[i], requests[id], TokenFor(reply, rows, i))
    {
      hide ValidBut, Leaked, Settled, StepReady;
      var batch: seq<int> :| Distinct(batch) && (forall id :: id in batch ==> id in active)
                             && |batch| <= Min(loop.limits.maxBatch, loop.limits.maxStepTokens);
      ghost var was := requests;
      rows, reply := CallDecode(batch);
      if reply.Tokens? && |reply.tokens| == |batch| {
        AcceptAll(batch, reply.tokens);
        SettledRows(was, requests, batch, rows, reply, seq(|batch|, i requires 0 <= i < |batch| => Some(reply.tokens[i])));
      } else if reply.Partial? && Covers(reply, rows) {
        SettleAll(batch, reply.samples);
        SettledRows(was, requests, batch, rows, reply, GivenBy(batch, reply.samples));
      } else {
        SettleAll(batch, map[]);
        SettledRows(was, requests, batch, rows, reply, GivenBy(batch, map[]));
      }
    }

    /** The backend's part of a decode: the rows' states are now ahead of their streams. */
    method CallDecode(batch: seq<int>) returns (rows: seq<Row>, reply: Reply)
      requires Valid() && Distinct(batch) && forall id :: id in batch ==> id in active
      modifies backend`states
      ensures ValidBut(Elements(batch)) && Leaked() == old(Leaked())
      ensures |rows| == |batch| && UniqueRows(rows) && Ids(rows) == Elements(batch)
      ensures forall i :: 0 <= i < |batch| ==>
                && batch[i] in active && batch[i] in places && batch[i] in requests && places[batch[i]].Active?
                && rows[i] == RowOf(requests[batch[i]]) && rows[i].spec.id == batch[i]
                && (TokenFor(reply, rows, i).Some? ==> StepReady(batch[i], TokenFor(reply, rows, i).value))
    {
      hide Listed, Counted, Streaming, Exact, Owned;
      BatchStands(places, incoming, deferred, taken, preempted, active, loop, requests, releasing, nextId, backend.reserved, granted);
      assert active - {} == active;
      RowsStand(active, requests, backend.states, batch, loop.sampler);
      rows := RowsOf(requests, batch);
      RowsAre(requests, batch, rows);
      ghost var states := backend.states;
      reply := backend.Decode(rows);
      forall i | 0 <= i < |batch| ensures batch[i] in active {
        var id := batch[i];
        assert id in batch;
      }
      DecodedElsewhere(active, requests, states, backend.states, batch, rows);
      if reply.Tokens? && |reply.tokens| == |batch| {
        DecodedAll(active, requests, states, backend.states, batch, rows, reply.tokens, loop.sampler);
      } else if reply.Partial? && Covers(reply, rows) {
        DecodedSome(active, requests, states, backend.states, batch, rows, reply, loop.sampler);
      }
    }

    /** Every row was advanced: each request takes its token. */
    method AcceptAll(batch: seq<int>, tokens: seq<Token>)
      requires ValidBut(Elements(batch)) && Distinct(batch) && |tokens| == |batch|
      requires forall i :: 0 <= i < |batch| ==> StepReady(batch[i], tokens[i])
      modifies this`active, this`requests, this`releasing, this`places, this`granted
      ensures Valid() && Leaked() == old(Leaked()) && active <= old(active)
      ensures Settled(old(requests), requests, batch, seq(|tokens|, i requires 0 <= i < |tokens| => Some(tokens[i])), |batch|)
    {
      hide Listed, Counted, Streaming, Exact, Owned, ExactState, Follows, Settled, Took;
      ghost var given := seq(|tokens|, i requires 0 <= i < |tokens| => Some(tokens[i]));
      SettledNone(requests, batch, given);
      assert batch[0..] == batch;
      for i := 0 to |batch|
        invariant ValidBut(Elements(batch[i..])) && Leaked() == old(Leaked()) && active <= old(active)
        invariant Settled(old(requests), requests, batch, given, i)
        invariant forall j :: i <= j < |batch| ==> StepReady(batch[j], tokens[j])
      {
        ElementsNext(batch, i);
        ghost var now := requests;
        var late := AcceptDecodeSample(batch[i], tokens[i], Elements(batch[i..]));
        TookOne(now[batch[i]], requests[batch[i]], given[i], late);
        SettledNext(old(requests), now, requests, batch, given, i);
      }
      assert Elements(batch[|batch|..]) == {};
    }

    /** Some rows were advanced: those requests take their tokens, the others are set aside or fail. */
    method SettleAll(batch: seq<int>, samples: map<int, Token>)
      requires ValidBut(Elements(batch)) && Distinct(batch)
      requires forall i :: 0 <= i < |batch| ==> batch[i] in active && batch[i] in places && batch[i] in requests && places[batch[i]].Active?
      requires forall i :: 0 <= i < |batch| && batch[i] in samples ==> StepReady(batch[i], samples[batch[i]])
      modifies this`active, this`requests, this`releasing, this`places, this`granted, this`preempted, backend`states, backend`reserved
      ensures Valid() && Leaked() == old(Leaked()) && active <= old(active)
      ensures Settled(old(requests), requests, batch, GivenBy(batch, samples), |batch|)
    {
      hide Listed, Counted, Streaming, Exact, Owned, Follows, Exactly, Settled, Took;
      ghost var given := GivenBy(batch, samples);
      SettledNone(requests, batch, given);
      assert batch[0..] == batch;
      for i := 0 to |batch|
        invariant ValidBut(Elements(batch[i..])) && Leaked() == old(Leaked()) && active <= old(active)
        invariant Settled(old(requests), requests, batch, given, i)
        invariant forall j :: i <= j < |batch| ==> batch[j] in active && batch[j] in places && batch[j] in requests && places[batch[j]].Active?
        invariant forall j :: i <= j < |batch| && batch[j] in samples ==> StepReady(batch[j], samples[batch[j]])
      {
        ElementsNext(batch, i);
        ghost var now := requests;
        SettleOne(batch[i], samples, Elements(batch[i..]));
        SettledNext(old(requests), now, requests, batch, given, i);
      }
      assert Elements(batch[|batch|..]) == {};
    }

    /** One row of such a batch. */
    method SettleOne(id: int, samples: map<int, Token>, ghost pending: set<int>)
      requires ValidBut(pending) && id in active && id in places && id in requests && places[id].Active?
      requires id in samples ==> StepReady(id, samples[id])
      modifies this`active, this`requests, this`releasing, this`places, this`granted, this`preempted, backend`states, backend`reserved
      ensures ValidBut(pending - {id}) && Leaked() == old(Leaked()) && old(active) - {id} <= active <= old(active)
      ensures old(granted) - {id} <= granted
      ensures id in places && places == old(places)[id := places[id]]
      ensures requests.Keys == old(requests).Keys && forall x :: x in requests && x != id ==> requests[x] == old(requests)[x]
      ensures forall x :: x in old(backend.states) && x != id ==> x in backend.states && backend.states[x] == old(backend.states)[x]
      ensures Took(RowOf(old(requests)[id]), requests[id], if id in samples then Some(samples[id]) else None)
    {
      hide Listed, Counted, Streaming, Exact, Owned, Follows, ExactState;
      if id in samples {
        var late := AcceptDecodeSample(id, samples[id], pending);
      } else {
        SuspendOrFail(id, pending);
      }
    }

    // ----- cancellation and shutdown

    /** Between two decode steps, cancelled and expired requests leave, and nobody else. */
    method RemoveCancelledOrExpired(cancelled: set<int>, expired: set<int>)
      requires Valid()
      modifies this`active, this`requests, this`releasing, this`places, this`granted
      ensures Valid() && Leaked() == old(Leaked()) && old(releasing) <= releasing
      ensures forall id :: id in old(active) ==> id in old(requests)
      ensures forall id :: id in active <==> id in old(active) && !Leaves(old(requests)[id].spec, id, cancelled, expired)
      ensures forall id :: id in old(active) && id !in active ==> Release(id, if id in cancelled then Cancelled else Failed) in releasing
      ensures requests.Keys == old(requests).Keys && forall id :: id in requests && (id !in old(active) || id in active) ==> requests[id] == old(requests)[id]
      ensures forall id :: id in old(places) && !old(places)[id].Active? ==> id in places && places[id] == old(places)[id]
    {
      hide ValidBut, Leaked, Closed;
      Actives();
      var todo := active;
      ghost var was := requests;
      while todo != {}
        invariant Valid() && Leaked() == old(Leaked()) && todo <= active <= old(active) && old(releasing) <= releasing
        invariant forall id :: id in old(places) && !old(places)[id].Active? ==> id in places && places[id] == old(places)[id]
        invariant forall id :: id in active ==> id in old(places) && old(places)[id].Active?
        invariant requests.Keys == was.Keys && forall id :: id in requests && (id !in old(active) || id in active) ==> requests[id] == was[id]
        invariant forall id :: id in old(active) && id !in todo ==> (id in active <==> !Leaves(was[id].spec, id, cancelled, expired))
        invariant forall id :: id in old(active) && id !in active ==> Release(id, if id in cancelled then Cancelled else Failed) in releasing
        decreases todo
      {
        var id := Pick(todo);
        todo := todo - {id};
        Actives();
        assert {} - {id} == {};
        assert requests[id] == was[id];
        if Leaves(requests[id].spec, id, cancelled, expired) {
          ghost var before := releasing;
          Finish(id, if id in cancelled then Cancelled else Failed, true, {});
          assert releasing == before + [Release(id, if id in cancelled then Cancelled else Failed)];
        }
      }
    }

    /** Ends everything when the loop stops: waiting requests are cancelled, active ones released as cancelled. */
    method Shutdown()
      requires Valid() && taken == []
      modifies this`incoming, this`taken, this`deferred, this`preempted, this`pendingCount, this`pendingTokens, this`active
      modifies this`requests, this`releasing, this`places, this`granted
      ensures Valid() && Leaked() == old(Leaked()) && old(releasing) <= releasing
      ensures incoming == [] && deferred == [] && taken == [] && preempted == [] && active == {}
      ensures pendingCount == 0 && pendingTokens == 0
      ensures CancelledAll(old(requests), requests, Elements(old(preempted + deferred + incoming)), old(active))
      ensures forall id :: id in old(active) ==> Release(id, Cancelled) in releasing
    {
      hide Listed, Counted, Streaming, Exact, Owned, CancelledAll, Elements;
      ghost var start, waiting, queued := requests, preempted, deferred + incoming;
      Apart(places, incoming, deferred, taken, preempted, active);
      EndPreempted();
      ghost var middle := requests;
      EndQueued();
      CancelledThen(start, middle, requests, Elements(waiting), Elements(queued), {}, {});
      ghost var later := requests;
      EndActive();
      CancelledThen(start, later, requests, Elements(waiting) + Elements(queued), {}, {}, old(active));
      ElementsOf(waiting, old(deferred), old(incoming));
      NothingQueued(requests, incoming + deferred + taken, pendingCount, pendingTokens);
    }

    method EndPreempted()
      requires Valid()
      modifies this`preempted, this`active, this`requests, this`releasing, this`places, this`granted
      ensures Valid() && Leaked() == old(Leaked()) && preempted == [] && active == old(active) && releasing == old(releasing)
      ensures CancelledAll(old(requests), requests, Elements(old(preempted)), {})
    {
      hide ValidBut, Leaked, Closed, CancelledAll, Elements, Distinct;
      ghost var was, queue, k := requests, preempted, 0;
      Queues();
      NoneCancelled(was);
      NoneYet(queue);
      while preempted != []
        invariant Valid() && Leaked() == old(Leaked()) && active == old(active) && releasing == old(releasing)
        invariant k <= |queue| && preempted == queue[k..] && CancelledAll(was, requests, Elements(queue[..k]), {})
        decreases |preempted|
      {
        ghost var now := requests;
        OneFurther(queue, k);
        EndWaiting();
        OneCancelled(was, now, requests, queue[..k], queue[k]);
        k := k + 1;
      }
    }

    /** The longest waiting preempted request is cancelled. */
    method EndWaiting()
      requires Valid() && preempted != []
      modifies this`preempted, this`active, this`requests, this`releasing, this`places, this`granted
      ensures Valid() && Leaked() == old(Leaked()) && preempted == old(preempted)[1..] && active == old(active) && releasing == old(releasing)
      ensures old(preempted)[0] in old(requests) && requests.Keys == old(requests).Keys
      ensures forall x :: x in requests ==>
                requests[x] == if x == old(preempted)[0] then Closed(old(requests)[x], Cancelled, false) else old(requests)[x]
    {
      hide ValidBut, Leaked, Closed, Distinct;
      var id := PopPreempted();
      Actives();
      assert {} - {id} == {} && active - {id} == active;
      Finish(id, Cancelled, false, {});
    }

    method EndQueued()
      requires Valid() && taken == []
      modifies this`incoming, this`taken, this`deferred, this`pendingCount, this`pendingTokens, this`active
      modifies this`requests, this`releasing, this`places, this`granted
      ensures Valid() && Leaked() == old(Leaked()) && incoming == [] && deferred == [] && taken == []
      ensures active == old(active) && releasing == old(releasing)
      ensures CancelledAll(old(requests), requests, Elements(old(deferred + incoming)), {})
    {
      hide ValidBut, Leaked, Closed, CancelledAll, Elements, Distinct;
      Queues();
      ghost var candidates, was := deferred + incoming, requests;
      TakeCandidates();
      SameElements(taken, candidates);
      SameMembers(taken, candidates);
      Queues();
      ghost var queue, k := taken, 0;
      NoneCancelled(was);
      NoneYet(queue);
      while taken != []
        invariant Valid() && Leaked() == old(Leaked()) && incoming == [] && deferred == []
        invariant active == old(active) && releasing == old(releasing)
        invariant forall id :: id in taken ==> id !in granted
        invariant k <= |queue| && taken == queue[k..] && CancelledAll(was, requests, Elements(queue[..k]), {})
        decreases |taken|
      {
        ghost var now := requests;
        OneFurther(queue, k);
        assert queue[k] in taken;
        Refuse(Cancelled);
        OneCancelled(was, now, requests, queue[..k], queue[k]);
        k := k + 1;
      }
    }

    method EndActive()
      requires Valid()
      modifies this`active, this`requests, this`releasing, this`places, this`granted
      ensures Valid() && Leaked() == old(Leaked()) && active == {} && old(releasing) <= releasing
      ensures CancelledAll(old(requests), requests, {}, old(active))
      ensures forall id :: id in old(active) ==> Release(id, Cancelled) in releasing
    {
      hide ValidBut, Leaked, Closed;
      ghost var was := requests;
      while active != {}
        invariant Valid() && Leaked() == old(Leaked()) && active <= old(active) && old(releasing) <= releasing
        invariant CancelledAll(was, requests, {}, old(active) - active)
        invariant forall id :: id in old(active) && id !in active ==> Release(id, Cancelled) in releasing
        decreases active
      {
        var id := Pick(active);
        Actives();
        assert {} - {id} == {};
        ghost var before, now, left := releasing, requests, active;
        Finish(id, Cancelled, true, {});
        assert releasing == before + [Release(id, Cancelled)];
        assert old(active) - active == (old(active) - left) + {id};
      }
    }

    /** Lets every background release finish. */
    method Drain()
      requires Valid()
      modifies this`requests, this`releasing, this`granted, backend`states, backend`reserved
      ensures Valid() && Leaked() == old(Leaked()) && releasing == []
    {
      hide ValidBut, Leaked;
      while releasing != []
        invariant Valid() && Leaked() == old(Leaked())
        decreases |releasing|
      {
        CompleteRelease(0);
      }
    }

    /**
     Nothing goes on past its end. Before its last token no stream of any request came to
     the end token, to a stop sequence or to its full length, and the last token of a
     request that has not ended is none of those either.
     */
    lemma NothingGoesOn(id: int, n: nat)
      requires Valid() && id in places && id in requests && 0 < n <= |requests[id].generated|
      requires n < |requests[id].generated| || !places[id].Ended?
      ensures var (spec, g) := (requests[id].spec, requests[id].generated);
              && (!spec.ignoreEos ==> loop.eos != Some(g[n - 1]))
              && (forall s, h :: s in spec.stopSequences && s != [] ==> g[..n] != h + s)
              && n < spec.maxNewTokens
    {
      hide Listed, Counted, Exact, Owned, FinishReason, Unended, Solo;
      StreamingHas(loop, places, requests, releasing, nextId, id);
      var (spec, g) := (requests[id].spec, requests[id].generated);
      UnendedIff(spec, loop.eos, g);
      if n == |g| {
        NotAtItsEnd(loop.sampler, spec, loop.eos, g, places[id]);
        assert g[..n] == g;
      }
      assert !Stopped(spec, loop.eos, g[..n]) && g[..n][n - 1] == g[n - 1];
    }

    /**
     What a handle hears of its end is true: `Stop` only after the end token or a stop
     sequence, `Length` only at the full length without either, and `Cancelled` only
     before any of them.
     */
    lemma EndsAreTrue(id: int, reason: Reason)
      requires Valid() && id in requests && FinishedEvent(reason) in requests[id].received
      ensures id in places && places[id].Ended? && id !in ReleasingIds(releasing)
      ensures var (spec, g) := (requests[id].spec, requests[id].generated);
              var stopped := g != [] && ((!spec.ignoreEos && loop.eos == Some(g[|g| - 1]))
                                         || exists s, h :: s in spec.stopSequences && s != [] && g == h + s);
              && requests[id].received == TokenEvents(g) + [FinishedEvent(reason)]
              && (reason.Stop? ==> stopped)
              && (reason.Length? ==> !stopped && |g| == spec.maxNewTokens)
              && (reason.Cancelled? ==> !stopped && |g| < spec.maxNewTokens)
    {
      hide Listed, Counted, Exact, Owned, FinishReason, Unended, Solo, ReleasingIds;
      StreamingHas(loop, places, requests, releasing, nextId, id);
      assert FinishedEvent(reason) !in TokenEvents(requests[id].generated);
    }

    /**
     When nothing waits, runs or is being released, every handle has heard its own
     request's stream and exactly one end, and the backend holds leaked resources only.
     */
    lemma AllHeard()
      requires Valid() && active == {} && releasing == []
      requires forall id :: id in places ==> places[id].Ended?
      ensures backend.reserved == Leaked()
      ensures forall id :: id in requests ==>
                && (requests[id].spec.clean ==> requests[id].generated == Solo(loop.sampler, requests[id].spec, |requests[id].generated|))
                && |requests[id].generated| <= requests[id].spec.maxNewTokens
                && Received(requests[id].received, requests[id].spec, loop.eos, requests[id].generated, true)
    {
      hide Listed, Counted, Exact, FinishReason, Solo, Stopped;
      assert ReleasingIds(releasing) == {};
      assert forall id :: id !in granted;
      assert granted == {};
      forall id | id in requests ensures |requests[id].generated| <= requests[id].spec.maxNewTokens {
        UnendedIsShort(requests[id].spec, loop.eos, requests[id].generated);
      }
    }
  }

  /** An active request that was cancelled, or has a deadline that is over, leaves. */
  predicate Leaves(spec: Spec, id: int, cancelled: set<int>, expired: set<int>) {
    id in cancelled || (spec.deadline.Some? && id in expired)
  }

  /** Some were told that they are cancelled, some will be once they are released; nobody else was touched. */
  ghost predicate CancelledAll(was: Requests, now: Requests, told: set<int>, released: set<int>) {
    && now.Keys == was.Keys
    && forall id :: id in now ==>
         now[id] == if id in told then Closed(was[id], Cancelled, false) else if id in released then Closed(was[id], Cancelled, true) else was[id]
  }

  lemma NoneCancelled(was: Requests)
    ensures CancelledAll(was, was, Elements([]), {})
  {
  }

  lemma NoneYet(queue: seq<int>)
    ensures queue[0..] == queue && queue[..0] == [] && queue[..|queue|] == queue
  {
  }

  lemma OneFurther(queue: seq<int>, k: nat)
    requires k < |queue| && Distinct(queue)
    ensures queue[k..] == [queue[k]] + queue[k + 1..] && queue[..k + 1] == queue[..k] + [queue[k]] && queue[k] !in queue[..k]
  {
  }

  lemma SameElements(a: seq<int>, b: seq<int>)
    requires multiset(a) == multiset(b)
    ensures Elements(a) == Elements(b)
  {
    SameMembers(a, b);
    forall x ensures x in Elements(a) <==> x in Elements(b) {
      assert x in Elements(a) <==> x in a;
    }
  }

  lemma OneCancelled(was: Requests, now: Requests, now': Requests, ids: seq<int>, id: int)
    requires CancelledAll(was, now, Elements(ids), {}) && id !in ids && id in now
    requires now'.Keys == now.Keys && forall x :: x in now' ==> now'[x] == if x == id then Closed(now[x], Cancelled, false) else now[x]
    ensures CancelledAll(was, now', Elements(ids + [id]), {})
  {
    hide Closed;
    assert now[id] == was[id];
  }

  lemma CancelledThen(
    was: Requests, middle: Requests, now: Requests, told: set<int>, told': set<int>, released: set<int>, released': set<int>)
    requires CancelledAll(was, middle, told, released) && CancelledAll(middle, now, told', released')
    requires (told + released) !! (told' + released')
    ensures CancelledAll(was, now, told + told', released + released')
  {
    hide Closed;
    forall id | id in now && (id in told' || id in released') ensures middle[id] == was[id] {
      assert id !in told + released;
    }
  }

  /** The queues and the active requests have nobody in common. */
  lemma Apart(places: Places, incoming: seq<int>, deferred: seq<int>, taken: seq<int>, preempted: seq<int>, active: set<int>)
    requires Listed(places, incoming, deferred, taken, preempted, active)
    ensures Elements(preempted) !! Elements(deferred + incoming)
    ensures Elements(preempted) + Elements(deferred + incoming) !! active
  {
    forall id | id in deferred + incoming ensures id in places && (places[id].Incoming? || places[id].Deferred?) {
      assert id in deferred || id in incoming;
    }
    forall id | id in Elements(preempted) ensures id !in Elements(deferred + incoming) && id !in active {
      assert id in preempted;
    }
    forall id | id in Elements(deferred + incoming) ensures id !in active {
      assert id in deferred + incoming;
    }
  }

  lemma ElementsOf(a: seq<int>, b: seq<int>, c: seq<int>)
    ensures Elements(a) + Elements(b + c) == Elements(a + b + c)
  {
  }

  function NewRequest(spec: Spec): Request {
    Request(spec, [], [], true, 0)
  }

  lemma NobodyYet(loop: LoopConfig, states: States)
    ensures Listed(map[], [], [], [], [], {}) && Counted(map[], [], 0, 0) && Streaming(loop, map[], map[], [], 0)
    ensures Exact({}, map[], states) && Owned(map[], {}, [], {}, {})
  {
    assert ReleasingIds([]) == {};
  }

  lemma NextIsNew(loop: LoopConfig, places: Places, requests: Requests, releasing: seq<Release>, nextId: nat)
    requires Streaming(loop, places, requests, releasing, nextId)
    ensures nextId !in places && nextId !in requests
    ensures Streaming(loop, places, requests, releasing, nextId + 1)
  {
    hide RequestOk, ReleasingIds;
  }

  lemma ListedMore(
    places: Places, incoming: seq<int>, deferred: seq<int>, taken: seq<int>, preempted: seq<int>, active: set<int>, id: int)
    requires Listed(places, incoming, deferred, taken, preempted, active) && id !in places
    ensures Listed(places[id := Incoming], incoming + [id], deferred, taken, preempted, active)
  {
    hide At, SetAt;
    AtAppend(places, incoming, Incoming, id);
    AtSame(places, deferred, Deferred, id, Incoming);
    AtSame(places, taken, Taken, id, Incoming);
    AtSame(places, preempted, Preempted, id, Incoming);
    SetAtSame(places, active, Active, id, Incoming);
  }

  lemma CountedMore(
    requests: Requests, incoming: seq<int>, deferred: seq<int>, taken: seq<int>, pendingCount: int, pendingTokens: int, spec: Spec)
    requires Counted(requests, incoming + deferred + taken, pendingCount, pendingTokens) && spec.id !in requests
    ensures Counted(requests[spec.id := NewRequest(spec)], incoming + [spec.id] + deferred + taken, pendingCount + 1, pendingTokens + DemandOf(spec))
  {
    var before, after := incoming + deferred + taken, incoming + [spec.id] + deferred + taken;
    var requests' := requests[spec.id := NewRequest(spec)];
    DemandSame(requests, requests', before);
    assert after == incoming + ([spec.id] + (deferred + taken));
    forall x | x in after ensures x in requests' {
      assert x in before || x == spec.id;
    }
    DemandInsert(requests', after, |incoming|);
    assert after[..|incoming|] + after[|incoming| + 1..] == before;
  }

  lemma StreamingMore(loop: LoopConfig, places: Places, requests: Requests, releasing: seq<Release>, nextId: nat, spec: Spec)
    requires Streaming(loop, places, requests, releasing, nextId)
    requires 0 <= spec.id < nextId && spec.id !in places && spec.maxNewTokens > 0
    ensures spec.id !in requests
    ensures Streaming(loop, places[spec.id := Incoming], requests[spec.id := NewRequest(spec)], releasing, nextId)
  {
    hide ReleasingIds;
  }

  lemma OthersUnchanged(
    places: Places, requests: Requests, active: set<int>, releasing: seq<Release>,
    states: States, reserved: set<int>, granted: set<int>, spec: Spec)
    requires Exact(active, requests, states)
    requires Owned(places, active, releasing, reserved, granted) && spec.id !in places
    ensures Exact(active, requests[spec.id := NewRequest(spec)], states)
    ensures Owned(places[spec.id := Incoming], active, releasing, reserved, granted)
  {
    hide ReleasingIds, ExactState;
  }

  // ----- what each move does to the books

  /** Every queued request is in the hands of the pass. */
  ghost function Taking(places: Places): Places {
    map id | id in places :: if places[id].Incoming? || places[id].Deferred? then Taken else places[id]
  }

  lemma ListedTaking(
    places: Places, incoming: seq<int>, deferred: seq<int>, taken: seq<int>, preempted: seq<int>, active: set<int>, candidates: seq<int>)
    requires Listed(places, incoming, deferred, taken, preempted, active) && taken == []
    requires multiset(candidates) == multiset(deferred + incoming)
    ensures Listed(Taking(places), [], [], candidates, preempted, active)
  {
    var queued, places' := deferred + incoming, Taking(places);
    SameMembers(candidates, queued);
    assert Distinct(queued) by {
      forall i, j | 0 <= i < j < |queued| ensures queued[i] != queued[j] {
        if i < |deferred| <= j {
          assert deferred[i] in deferred && incoming[j - |deferred|] in incoming;
        }
      }
    }
    DistinctOrder(queued, candidates);
    forall id ensures id in queued <==> id in deferred || id in incoming {}
    forall id ensures id in places ==> id !in taken {}
  }

  lemma SameMembers(a: seq<int>, b: seq<int>)
    requires multiset(a) == multiset(b)
    ensures forall x :: x in a <==> x in b
  {
    assert forall x :: x in a <==> x in multiset(a);
    assert forall x :: x in b <==> x in multiset(b);
  }

  lemma DistinctOrder(a: seq<int>, b: seq<int>)
    requires multiset(a) == multiset(b) && Distinct(a)
    ensures Distinct(b)
  {
    forall i, j | 0 <= i < j < |b| ensures b[i] != b[j] {
      if b[i] == b[j] {
        Twice(b, i, j);
        OnceEach(a, b[i]);
      }
    }
  }

  lemma CountedOrder(requests: Requests, incoming: seq<int>, deferred: seq<int>, candidates: seq<int>, pendingCount: int, pendingTokens: int)
    requires Counted(requests, incoming + deferred + [], pendingCount, pendingTokens)
    requires multiset(candidates) == multiset(deferred + incoming)
    ensures Counted(requests, candidates, pendingCount, pendingTokens)
  {
    var before := incoming + deferred + [];
    assert multiset(before) == multiset(deferred + incoming);
    DemandOrder(requests, before, candidates);
    assert |multiset(before)| == |before| && |multiset(candidates)| == |candidates|;
  }

  lemma StreamingTaking(loop: LoopConfig, places: Places, requests: Requests, releasing: seq<Release>, nextId: nat)
    requires Streaming(loop, places, requests, releasing, nextId)
    ensures Streaming(loop, Taking(places), requests, releasing, nextId)
  {
    hide ReleasingIds;
  }

  lemma OwnedTaking(places: Places, active: set<int>, releasing: seq<Release>, reserved: set<int>, granted: set<int>)
    requires Owned(places, active, releasing, reserved, granted)
    ensures Owned(Taking(places), active, releasing, reserved, granted)
  {
    hide ReleasingIds;
  }

  lemma HeadIsTaken(
    places: Places, incoming: seq<int>, deferred: seq<int>, taken: seq<int>, preempted: seq<int>, active: set<int>,
    requests: Requests, pendingCount: int, pendingTokens: int)
    requires Listed(places, incoming, deferred, taken, preempted, active) && taken != []
    requires Counted(requests, incoming + deferred + taken, pendingCount, pendingTokens)
    ensures taken[0] in places && places[taken[0]].Taken? && taken[0] in requests && taken[0] !in active
    ensures taken[0] !in taken[1..]
  {
    var id := taken[0];
    assert id in taken;
    assert id in incoming + deferred + taken;
  }

  lemma ListedHeld(places: Places, incoming: seq<int>, deferred: seq<int>, taken: seq<int>, preempted: seq<int>, active: set<int>)
    requires Listed(places, incoming, deferred, taken, preempted, active) && taken != []
    ensures Listed(places[taken[0] := Held], incoming, deferred, taken[1..], preempted, active)
  {
    hide At, SetAt;
    var id := taken[0];
    AtPop(places, taken, Taken, Held);
    AtSame(places, incoming, Incoming, id, Held);
    AtSame(places, deferred, Deferred, id, Held);
    AtSame(places, preempted, Preempted, id, Held);
    SetAtSame(places, active, Active, id, Held);
  }

  lemma ListedDeferred(places: Places, incoming: seq<int>, deferred: seq<int>, taken: seq<int>, preempted: seq<int>, active: set<int>)
    requires Listed(places, incoming, deferred, taken, preempted, active) && taken != []
    ensures Listed(places[taken[0] := Deferred], incoming, deferred + [taken[0]], taken[1..], preempted, active)
  {
    hide At, SetAt;
    var id := taken[0];
    AtPop(places, taken, Taken, Deferred);
    AtSame(places, incoming, Incoming, id, Deferred);
    AtAppend(places, deferred, Deferred, id);
    AtSame(places, preempted, Preempted, id, Deferred);
    SetAtSame(places, active, Active, id, Deferred);
  }

  lemma CountedFewer(requests: Requests, incoming: seq<int>, deferred: seq<int>, taken: seq<int>, pendingCount: int, pendingTokens: int)
    requires Counted(requests, incoming + deferred + taken, pendingCount, pendingTokens) && taken != []
    ensures taken[0] in requests
    ensures Counted(requests, incoming + deferred + taken[1..], pendingCount - 1, pendingTokens - DemandOf(requests[taken[0]].spec))
    ensures pendingCount >= 1 && pendingTokens - DemandOf(requests[taken[0]].spec) >= 0
  {
    var before, i := incoming + deferred + taken, |incoming + deferred|;
    assert before[i] == taken[0];
    DemandInsert(requests, before, i);
    assert before[..i] + before[i + 1..] == incoming + deferred + taken[1..];
  }

  /** One request changes its place, or grows, and is still all right. */
  lemma StreamingMoved(
    loop: LoopConfig, places: Places, requests: Requests, releasing: seq<Release>, nextId: nat, id: int, q: Request, p: Place)
    requires Streaming(loop, places, requests, releasing, nextId)
    requires id in places && id !in ReleasingIds(releasing) && RequestOk(loop, id, q, p, false)
    ensures Streaming(loop, places[id := p], requests[id := q], releasing, nextId)
    ensures id in requests && q == requests[id] ==> requests[id := q] == requests
  {
    hide RequestOk, ReleasingIds, Justified;
    forall i | 0 <= i < |releasing| ensures releasing[i].id != id {
      IsReleasing(releasing, i);
    }
  }

  /** A candidate may be held or deferred as it is. */
  lemma StreamingWaits(loop: LoopConfig, places: Places, requests: Requests, releasing: seq<Release>, nextId: nat, id: int, p: Place)
    requires Streaming(loop, places, requests, releasing, nextId)
    requires id in places && places[id].Taken? && (p.Held? || p.Deferred?)
    ensures Streaming(loop, places[id := p], requests, releasing, nextId)
  {
    hide ReleasingIds, Streaming;
    StreamingHas(loop, places, requests, releasing, nextId, id);
    StreamingMoved(loop, places, requests, releasing, nextId, id, requests[id], p);
  }

  lemma StreamingHas(loop: LoopConfig, places: Places, requests: Requests, releasing: seq<Release>, nextId: nat, id: int)
    requires Streaming(loop, places, requests, releasing, nextId) && id in places
    ensures id in requests && RequestOk(loop, id, requests[id], places[id], id in ReleasingIds(releasing))
    ensures requests[id := requests[id]] == requests
    ensures id in ReleasingIds(releasing) ==> places[id].Ended?
  {
    hide ReleasingIds, StreamOk, Received;
  }

  /** A move that leaves the request a place where it may own what it owns. */
  lemma OwnedMoved(
    places: Places, active: set<int>, releasing: seq<Release>, reserved: set<int>, granted: set<int>, id: int, p: Place)
    requires Owned(places, active, releasing, reserved, granted)
    requires id in places && !places[id].Ended? && (id in granted ==> p.Held? || p.Active? || p.Taken?)
    ensures Owned(places[id := p], active, releasing, reserved, granted)
  {
    hide ReleasingIds;
  }

  // ----- ending

  /** A request's record says nothing wrong, and its handle is still waiting for the end. */
  ghost predicate Speaks(loop: LoopConfig, id: int, q: Request) {
    && q.spec.id == id && q.registered && q.preemptions <= loop.limits.maxPreemptions
    && StreamOk(loop.sampler, loop.eos, q.spec, q.generated, Ended)
    && Received(q.received, q.spec, loop.eos, q.generated, false)
  }

  function Closed(q: Request, reason: Reason, release: bool): Request {
    q.(registered := false, received := if release then q.received else q.received + [FinishedEvent(reason)])
  }

  lemma ClosedSpec(q: Request, reason: Reason, release: bool)
    ensures Closed(q, reason, release).spec == q.spec
  {
  }

  lemma StandingSpeaks(loop: LoopConfig, id: int, q: Request, p: Place, releasing: bool)
    requires RequestOk(loop, id, q, p, releasing) && !p.Ended?
    ensures Speaks(loop, id, q)
  {
  }

  lemma ListedEnded(
    places: Places, incoming: seq<int>, deferred: seq<int>, taken: seq<int>, preempted: seq<int>, active: set<int>, id: int)
    requires Listed(places, incoming, deferred, taken, preempted, active)
    requires id in places && (places[id].Held? || places[id].Active?)
    ensures Listed(places[id := Ended], incoming, deferred, taken, preempted, active - {id})
  {
    hide At, SetAt;
    AtSame(places, incoming, Incoming, id, Ended);
    AtSame(places, deferred, Deferred, id, Ended);
    AtSame(places, taken, Taken, id, Ended);
    AtSame(places, preempted, Preempted, id, Ended);
    SetAtRemove(places, active, Active, id, Ended);
  }

  lemma StreamingClosed(
    loop: LoopConfig, places: Places, requests: Requests, releasing: seq<Release>, nextId: nat, id: int, q: Request, reason: Reason, release: bool)
    requires Streaming(loop, places, requests, releasing, nextId)
    requires id in places && !places[id].Ended? && Speaks(loop, id, q) && Justified(q.spec, loop.eos, q.generated, reason)
    ensures Streaming(loop, places[id := Ended], requests[id := Closed(q, reason, release)],
                      if release then releasing + [Release(id, reason)] else releasing, nextId)
  {
    StreamingHas(loop, places, requests, releasing, nextId, id);
    if release {
      ReleasingNext(releasing, Release(id, reason));
      StreamingReleasing(loop, places, requests, releasing, nextId, id, Closed(q, reason, true), reason);
    } else {
      assert Closed(q, reason, false).received == TokenEvents(q.generated) + [FinishedEvent(reason)];
      StreamingMoved(loop, places, requests, releasing, nextId, id, Closed(q, reason, false), Ended);
    }
  }

  lemma StreamingReleasing(
    loop: LoopConfig, places: Places, requests: Requests, releasing: seq<Release>, nextId: nat, id: int, q: Request, reason: Reason)
    requires Streaming(loop, places, requests, releasing, nextId)
    requires id in places && id !in ReleasingIds(releasing) && RequestOk(loop, id, q, Ended, true)
    requires Justified(q.spec, loop.eos, q.generated, reason)
    ensures Streaming(loop, places[id := Ended], requests[id := q], releasing + [Release(id, reason)], nextId)
  {
    hide RequestOk;
    ReleasingNext(releasing, Release(id, reason));
    var longer := releasing + [Release(id, reason)];
    forall i, j | 0 <= i < j < |longer| ensures longer[i].id != longer[j].id {
      if j == |releasing| {
        assert releasing[i].id in ReleasingIds(releasing);
      }
    }
  }

  lemma CountedSame(requests: Requests, queued: seq<int>, pendingCount: int, pendingTokens: int, id: int, q: Request)
    requires Counted(requests, queued, pendingCount, pendingTokens)
    requires id in requests ==> requests[id].spec == q.spec
    ensures Counted(requests[id := q], queued, pendingCount, pendingTokens)
  {
    DemandSame(requests, requests[id := q], queued);
  }

  lemma ExactWithout(some: set<int>, requests: Requests, states: States, id: int, q: Request)
    requires Exact(some, requests, states)
    ensures Exact(some - {id}, requests[id := q], states)
  {
    hide ExactState;
  }

  lemma ExactElsewhere(some: set<int>, requests: Requests, states: States, id: int, q: Request)
    requires Exact(some, requests, states) && id !in some
    ensures Exact(some, requests[id := q], states - {id})
  {
  }

  lemma OwnedClosed(
    places: Places, active: set<int>, releasing: seq<Release>, reserved: set<int>, granted: set<int>,
    id: int, reason: Reason, release: bool)
    requires Owned(places, active, releasing, reserved, granted)
    requires id in places && (places[id].Held? || places[id].Active?) && id !in ReleasingIds(releasing)
    ensures Owned(places[id := Ended], active - {id}, if release then releasing + [Release(id, reason)] else releasing, reserved,
                  if release then granted else granted - {id})
    ensures granted <= reserved
  {
    hide ReleasingIds;
    ReleasingNext(releasing, Release(id, reason));
  }

  lemma ReleasedHas(
    loop: LoopConfig, places: Places, requests: Requests, releasing: seq<Release>, nextId: nat, i: nat,
    active: set<int>, incoming: seq<int>, deferred: seq<int>, taken: seq<int>, preempted: seq<int>)
    requires Streaming(loop, places, requests, releasing, nextId) && i < |releasing|
    requires Listed(places, incoming, deferred, taken, preempted, active)
    ensures releasing[i].id in ReleasingIds(releasing) && releasing[i].id in places && releasing[i].id in requests
    ensures places[releasing[i].id].Ended? && releasing[i].id !in active
    ensures forall j, k :: 0 <= j < k < |releasing| ==> releasing[j].id != releasing[k].id
  {
  }

  lemma ReleasingRemoved(releasing: seq<Release>, i: nat)
    requires i < |releasing| && forall j, k :: 0 <= j < k < |releasing| ==> releasing[j].id != releasing[k].id
    ensures ReleasingIds(releasing[..i] + releasing[i + 1..]) == ReleasingIds(releasing) - {releasing[i].id}
  {
    var rest := releasing[..i] + releasing[i + 1..];
    forall id ensures id in ReleasingIds(rest) <==> id in ReleasingIds(releasing) && id != releasing[i].id {
      if id in ReleasingIds(rest) {
        var j :| 0 <= j < |rest| && rest[j].id == id;
        assert releasing[if j < i then j else j + 1].id == id;
      }
      if id in ReleasingIds(releasing) && id != releasing[i].id {
        var j :| 0 <= j < |releasing| && releasing[j].id == id;
        assert rest[if j < i then j else j - 1].id == id;
      }
    }
  }

  lemma StreamingReleased(
    loop: LoopConfig, places: Places, requests: Requests, releasing: seq<Release>, nextId: nat, i: nat, reason: Reason)
    requires Streaming(loop, places, requests, releasing, nextId) && i < |releasing|
    requires releasing[i].id in requests && (reason.Failed? || reason == releasing[i].reason)
    ensures Justified(requests[releasing[i].id].spec, loop.eos, requests[releasing[i].id].generated, reason)
    ensures var q := requests[releasing[i].id];
            Streaming(loop, places, requests[releasing[i].id := q.(received := q.received + [FinishedEvent(reason)])],
                      releasing[..i] + releasing[i + 1..], nextId)
  {
    hide ReleasingIds, Justified, RequestOk;
    ReleasingRemoved(releasing, i);
    var id := releasing[i].id;
    var rest := releasing[..i] + releasing[i + 1..];
    IsReleasing(releasing, i);
    ReleasedOk(loop, places, requests, releasing, nextId, i, reason);
    forall j, k | 0 <= j < k < |rest| ensures rest[j].id != rest[k].id {
      assert rest[j] == releasing[if j < i then j else j + 1] && rest[k] == releasing[if k < i then k else k + 1];
    }
    forall j | 0 <= j < |rest| ensures rest[j] == releasing[if j < i then j else j + 1] {}
  }

  lemma ReleasedOk(
    loop: LoopConfig, places: Places, requests: Requests, releasing: seq<Release>, nextId: nat, i: nat, reason: Reason)
    requires Streaming(loop, places, requests, releasing, nextId) && i < |releasing|
    requires releasing[i].id in requests && (reason.Failed? || reason == releasing[i].reason)
    ensures var q := requests[releasing[i].id];
            && Justified(q.spec, loop.eos, q.generated, reason)
            && RequestOk(loop, releasing[i].id, q.(received := q.received + [FinishedEvent(reason)]), places[releasing[i].id], false)
  {
    hide ReleasingIds, StreamOk;
    IsReleasing(releasing, i);
    var q := requests[releasing[i].id];
    assert RequestOk(loop, releasing[i].id, q, places[releasing[i].id], true);
    assert q.received + [FinishedEvent(reason)] == TokenEvents(q.generated) + [FinishedEvent(reason)];
  }

  lemma IsReleasing(releasing: seq<Release>, i: nat)
    requires i < |releasing|
    ensures releasing[i].id in ReleasingIds(releasing)
  {
  }

  lemma OwnedReleased(
    places: Places, active: set<int>, releasing: seq<Release>, reserved: set<int>, granted: set<int>, i: nat)
    requires Owned(places, active, releasing, reserved, granted) && i < |releasing|
    requires releasing[i].id in places && places[releasing[i].id].Ended? && releasing[i].id !in active
    requires forall j, k :: 0 <= j < k < |releasing| ==> releasing[j].id != releasing[k].id
    ensures Owned(places, active, releasing[..i] + releasing[i + 1..], reserved - {releasing[i].id}, granted - {releasing[i].id})
    ensures (reserved - {releasing[i].id}) - (granted - {releasing[i].id}) == reserved - granted
  {
    hide ReleasingIds;
    ReleasingRemoved(releasing, i);
    IsReleasing(releasing, i);
  }

  // ----- going on

  function Spoken(q: Request, token: Token): Request {
    q.(generated := q.generated + [token], received := q.received + [TokenEvent(token)])
  }

  /** For a clean request, `token` is what it would get next if it ran alone. */
  ghost predicate Follows(sampler: Sampler, q: Request, token: Token) {
    q.spec.clean ==> q.generated + [token] == Solo(sampler, q.spec, |q.generated| + 1)
  }

  /**
   A request took a token and its handle heard it. It goes on, unless the token stopped
   the stream or filled it up; then it is being released for that reason.
   */
  ghost predicate TookToken(
    loop: LoopConfig, id: int, was: Request, now: Request, token: Token, before: seq<Release>, after: seq<Release>, goesOn: bool)
  {
    && now == was.(generated := was.generated + [token], received := now.received, registered := now.registered)
    && now.received == was.received + [TokenEvent(token)]
    && (goesOn <==> !Stopped(now.spec, loop.eos, now.generated) && |now.generated| < now.spec.maxNewTokens)
    && after == before + if goesOn then [] else [Release(id, if Stopped(now.spec, loop.eos, now.generated) then Stop else Length)]
  }

  lemma TokenTaken(loop: LoopConfig, id: int, q: Request, token: Token, releasing: seq<Release>)
    requires Speaks(loop, id, Spoken(q, token))
    ensures var q', reason := Spoken(q, token), FinishReason(q.spec, loop.eos, q.generated + [token]);
            && (reason.Some? ==>
                  && Justified(q'.spec, loop.eos, q'.generated, reason.value)
                  && TookToken(loop, id, q, Closed(q', reason.value, true), token, releasing, releasing + [Release(id, reason.value)], false))
            && (reason.None? ==> TookToken(loop, id, q, q', token, releasing, releasing, true))
  {
    hide Stopped, Unended, Solo, FinishReason;
    var q' := Spoken(q, token);
    EndsIff(q'.spec, loop.eos, q'.generated);
    if FinishReason(q.spec, loop.eos, q.generated + [token]).Some? {
      OwnEnd(loop.sampler, q'.spec, loop.eos, q'.generated);
    }
  }

  lemma SpeaksNext(loop: LoopConfig, id: int, q: Request, p: Place, releasing: bool, token: Token)
    requires RequestOk(loop, id, q, p, releasing) && !p.Ended? && Follows(loop.sampler, q, token)
    ensures Speaks(loop, id, Spoken(q, token))
    ensures Spoken(q, token).spec == q.spec && Spoken(q, token).generated == q.generated + [token]
    ensures !releasing
    ensures FinishReason(q.spec, loop.eos, Spoken(q, token).generated).None? ==> RequestOk(loop, id, Spoken(q, token), Active, false)
  {
    UnendedNext(q.spec, loop.eos, q.generated, token);
    TokenEventsNext(q.generated, token);
  }

  lemma ListedActive(
    places: Places, incoming: seq<int>, deferred: seq<int>, taken: seq<int>, preempted: seq<int>, active: set<int>, id: int)
    requires Listed(places, incoming, deferred, taken, preempted, active)
    requires id in places && (places[id].Held? || places[id].Active?)
    ensures Listed(places[id := Active], incoming, deferred, taken, preempted, active + {id})
    ensures places[id].Active? <==> id in active
  {
    AtSame(places, incoming, Incoming, id, Active);
    AtSame(places, deferred, Deferred, id, Active);
    AtSame(places, taken, Taken, id, Active);
    AtSame(places, preempted, Preempted, id, Active);
    SetAtAdd(places, active, Active, id);
  }

  lemma MoreActive(active: set<int>, id: int)
    ensures |active + {id}| == |active| + if id in active then 0 else 1
  {
    if id in active {
      assert active + {id} == active;
    }
  }

  lemma ExactWith(some: set<int>, requests: Requests, states: States, id: int, q: Request, loop: LoopConfig)
    requires Exact(some, requests, states) && RequestOk(loop, id, q, Active, false) && ExactState(q.spec, q.generated, states)
    ensures Exact(some + {id}, requests[id := q], states)
  {
    hide ExactState, StreamOk, Received;
  }

  lemma OwnedActive(places: Places, active: set<int>, releasing: seq<Release>, reserved: set<int>, granted: set<int>, id: int)
    requires Owned(places, active, releasing, reserved, granted)
    requires id in places && !places[id].Ended? && id in granted
    ensures Owned(places[id := Active], active + {id}, releasing, reserved, granted)
  {
    hide ReleasingIds;
  }

  // ----- setting aside

  predicate StrictlyMoreUrgent(candidate: Spec, victim: Spec) {
    if candidate.priority != victim.priority then candidate.priority > victim.priority
    else if candidate.deadline.None? then false
    else victim.deadline.None? || candidate.deadline.value < victim.deadline.value
  }

  /**
   Urgency is a strict order of requests: priority first, then the nearer deadline, and
   any deadline before none. So whoever is pushed aside could not push the other aside
   in turn, and requests that are equally urgent leave each other alone.
   */
  lemma UrgencyIsAnOrder(a: Spec, b: Spec, c: Spec)
    ensures !StrictlyMoreUrgent(a, a)
    ensures StrictlyMoreUrgent(a, b) ==> !StrictlyMoreUrgent(b, a)
    ensures StrictlyMoreUrgent(a, b) && StrictlyMoreUrgent(b, c) ==> StrictlyMoreUrgent(a, c)
    ensures a.priority > b.priority ==> StrictlyMoreUrgent(a, b)
    ensures a.priority == b.priority && a.deadline.Some? && (b.deadline.None? || a.deadline.value < b.deadline.value) ==>
              StrictlyMoreUrgent(a, b)
    ensures !StrictlyMoreUrgent(a, b) && !StrictlyMoreUrgent(b, a) <==> a.priority == b.priority && a.deadline == b.deadline
  {
  }

  lemma Overwritten(was: Places, held: Places, now: Places, id: int)
    requires held == was[id := Held] && id in now && now == held[id := now[id]]
    ensures now == was[id := now[id]]
  {
  }

  /** A request that a candidate may push aside. */
  predicate MayFall(urgent: Spec, q: Request, limits: Limits) {
    q.preemptions < limits.maxPreemptions && StrictlyMoreUrgent(urgent, q.spec)
  }

  /** The order in which requests are pushed aside: the least urgent first, then the shortest replay, then the oldest. */
  predicate FallsBefore(x: Request, y: Request) {
    var replayX, replayY := |x.spec.prompt| + Max(0, |x.generated| - 1), |y.spec.prompt| + Max(0, |y.generated| - 1);
    if x.spec.priority != y.spec.priority then x.spec.priority < y.spec.priority
    else if x.spec.deadline.Some? != y.spec.deadline.Some? then x.spec.deadline.None?
    else if x.spec.deadline.Some? && x.spec.deadline.value != y.spec.deadline.value then x.spec.deadline.value > y.spec.deadline.value
    else if replayX != replayY then replayX < replayY
    else x.spec.id < y.spec.id
  }

  lemma FallsInOrder(x: Request, y: Request, z: Request)
    ensures x.spec.id != y.spec.id ==> FallsBefore(x, y) || FallsBefore(y, x)
    ensures FallsBefore(x, y) && FallsBefore(y, z) ==> FallsBefore(x, z)
    ensures FallsBefore(x, y) ==> !FallsBefore(y, x)
  {
  }

  lemma {:induction false} FirstToFall(requests: Requests, victims: set<int>) returns (first: int)
    requires victims != {} && forall id :: id in victims ==> id in requests && requests[id].spec.id == id
    ensures first in victims && forall other :: other in victims && other != first ==> FallsBefore(requests[first], requests[other])
    decreases |victims|
  {
    hide FallsBefore;
    assert exists id :: id in victims by {
      assert (forall id :: id !in victims) ==> |victims| == 0;
    }
    first :| first in victims;
    var rest := victims - {first};
    if rest != {} {
      var least := FirstToFall(requests, rest);
      FallsInOrder(requests[first], requests[least], requests[least]);
      if FallsBefore(requests[first], requests[least]) {
        forall other | other in victims && other != first ensures FallsBefore(requests[first], requests[other]) {
          if other != least {
            FallsInOrder(requests[first], requests[least], requests[other]);
          }
        }
      } else {
        first := least;
      }
    }
  }

  /** Of those that may be pushed aside nobody is less urgent, and nobody as urgent is recovered on fewer tokens. */
  ghost predicate LeastUrgent(active: set<int>, requests: Requests, limits: Limits, candidate: int, victim: int) {
    && candidate in requests && victim in requests
    && forall other ::
         && other in active && other in requests && requests[other].preemptions < limits.maxPreemptions
         && StrictlyMoreUrgent(requests[candidate].spec, requests[other].spec) ==>
           && !StrictlyMoreUrgent(requests[victim].spec, requests[other].spec)
           && (!StrictlyMoreUrgent(requests[other].spec, requests[victim].spec) ==>
                 |requests[victim].spec.prompt| + |requests[victim].generated| <= |requests[other].spec.prompt| + |requests[other].generated|)
  }

  lemma FirstIsLeast(requests: Requests, limits: Limits, active: set<int>, candidate: int, victims: set<int>, victim: int)
    requires candidate in requests && forall id :: id in active ==> id in requests && requests[id].generated != []
    requires victims == set id | id in active && MayFall(requests[candidate].spec, requests[id], limits)
    requires victim in victims && forall other :: other in victims && other != victim ==> FallsBefore(requests[victim], requests[other])
    ensures LeastUrgent(active, requests, limits, candidate, victim)
  {
    forall other | other in active && MayFall(requests[candidate].spec, requests[other], limits)
      ensures !StrictlyMoreUrgent(requests[victim].spec, requests[other].spec)
      ensures !StrictlyMoreUrgent(requests[other].spec, requests[victim].spec) ==>
                |requests[victim].spec.prompt| + |requests[victim].generated| <= |requests[other].spec.prompt| + |requests[other].generated|
    {
      assert other in victims;
    }
  }

  lemma OwnIds(loop: LoopConfig, places: Places, requests: Requests, releasing: seq<Release>, nextId: nat)
    requires Streaming(loop, places, requests, releasing, nextId)
    ensures forall id :: id in requests ==> requests[id].spec.id == id
    ensures forall id :: id in requests && places[id].Active? ==> requests[id].generated != []
  {
    hide ReleasingIds, Received, Unended, Solo;
  }

  /** Some active request may be pushed aside for a candidate. */
  ghost predicate Eligible(active: set<int>, requests: Requests, limits: Limits, candidate: int) {
    && candidate in requests
    && exists id :: id in active && id in requests && requests[id].preemptions < limits.maxPreemptions
                    && StrictlyMoreUrgent(requests[candidate].spec, requests[id].spec)
  }

  lemma ActiveAreKnown(
    places: Places, incoming: seq<int>, deferred: seq<int>, taken: seq<int>, preempted: seq<int>, active: set<int>,
    loop: LoopConfig, requests: Requests, releasing: seq<Release>, nextId: nat)
    requires Listed(places, incoming, deferred, taken, preempted, active)
    requires Streaming(loop, places, requests, releasing, nextId)
    ensures forall id :: id in active ==> id in places && id in requests && places[id].Active?
  {
    hide RequestOk, ReleasingIds, At;
  }

  lemma MayBeSetAside(loop: LoopConfig, id: int, q: Request, p: Place, releasing: bool, q': Request)
    requires RequestOk(loop, id, q, p, releasing) && p.Active?
    requires q' == q.(preemptions := q'.preemptions) && (q' == q || q'.preemptions <= loop.limits.maxPreemptions)
    ensures RequestOk(loop, id, q', Preempted, false)
  {
  }

  lemma ListedSetAside(
    places: Places, incoming: seq<int>, deferred: seq<int>, taken: seq<int>, preempted: seq<int>, active: set<int>, id: int)
    requires Listed(places, incoming, deferred, taken, preempted, active)
    requires id in places && (id in active || places[id].Held?)
    ensures Listed(places[id := Preempted], incoming, deferred, taken, preempted + [id], active - {id})
    ensures places[id].Active? || places[id].Held?
  {
    AtSame(places, incoming, Incoming, id, Preempted);
    AtSame(places, deferred, Deferred, id, Preempted);
    AtSame(places, taken, Taken, id, Preempted);
    AtAppend(places, preempted, Preempted, id);
    SetAtRemove(places, active, Active, id, Preempted);
  }

  lemma ExactSetAside(some: set<int>, requests: Requests, states: States, id: int, q: Request)
    requires Exact(some, requests, states)
    ensures Exact(some - {id}, requests[id := q], states - {id})
  {
  }

  lemma OwnedSetAside(places: Places, active: set<int>, releasing: seq<Release>, reserved: set<int>, granted: set<int>, id: int)
    requires Owned(places, active, releasing, reserved, granted) && id in active && id in places
    ensures Owned(places[id := Preempted], active - {id}, releasing, reserved - {id}, granted - {id})
    ensures (reserved - {id}) - (granted - {id}) == reserved - granted
  {
    hide ReleasingIds;
  }

  lemma ListedPopped(places: Places, incoming: seq<int>, deferred: seq<int>, taken: seq<int>, preempted: seq<int>, active: set<int>)
    requires Listed(places, incoming, deferred, taken, preempted, active) && preempted != []
    ensures preempted[0] in places && places[preempted[0]].Preempted?
    ensures Listed(places[preempted[0] := Held], incoming, deferred, taken, preempted[1..], active)
  {
    hide At, SetAt;
    var id := preempted[0];
    AtPop(places, preempted, Preempted, Held);
    AtSame(places, incoming, Incoming, id, Held);
    AtSame(places, deferred, Deferred, id, Held);
    AtSame(places, taken, Taken, id, Held);
    SetAtSame(places, active, Active, id, Held);
  }

  lemma PoppedMayBeHeld(loop: LoopConfig, id: int, q: Request, p: Place, releasing: bool)
    requires RequestOk(loop, id, q, p, releasing) && p.Preempted?
    ensures RequestOk(loop, id, q, Held, releasing) && q.generated != []
  {
  }

  lemma HeldMayWait(loop: LoopConfig, id: int, q: Request, p: Place, releasing: bool)
    requires RequestOk(loop, id, q, p, releasing) && p.Held? && q.generated != []
    ensures RequestOk(loop, id, q, Preempted, releasing)
  {
  }

  lemma HeldMayGoOn(loop: LoopConfig, id: int, q: Request, p: Place, releasing: bool)
    requires RequestOk(loop, id, q, p, releasing) && p.Held? && q.generated != []
    ensures RequestOk(loop, id, q, Active, false)
    ensures q.spec.id == id
  {
  }

  lemma PreemptedOwnsNothing(places: Places, active: set<int>, releasing: seq<Release>, reserved: set<int>, granted: set<int>, id: int)
    requires Owned(places, active, releasing, reserved, granted) && id in places && places[id].Preempted?
    ensures id !in granted && id !in reserved
  {
    hide ReleasingIds;
  }

  /** A request that was granted nothing holds nothing, unless it ended. */
  lemma OwnedRecovering(places: Places, active: set<int>, releasing: seq<Release>, reserved: set<int>, granted: set<int>, id: int)
    requires Owned(places, active, releasing, reserved, granted) && id in places && places[id].Held? && id !in granted
    ensures Owned(places, active, releasing, reserved + {id}, granted + {id})
    ensures (reserved + {id}) - (granted + {id}) == reserved - granted
    ensures reserved - {id} == reserved && Owned(places, active, releasing, reserved, granted)
  {
    hide ReleasingIds;
    assert id !in reserved;
  }

  lemma ExactAfter(some: set<int>, requests: Requests, states: States, id: int, replay: Kept)
    requires Exact(some, requests, states) && id !in some
    ensures Exact(some, requests, states[id := replay])
  {
  }

  /** Those of a queue that are in a set, in the order of the queue. */
  function Those(queue: seq<int>, some: set<int>): seq<int> {
    if queue == [] then []
    else
      var n := |queue| - 1;
      Those(queue[..n], some) + if queue[n] in some then [queue[n]] else []
  }

  lemma {:induction false} ThoseSame(queue: seq<int>, some: set<int>, others: set<int>)
    requires forall id :: id in queue ==> (id in some <==> id in others)
    ensures Those(queue, some) == Those(queue, others)
  {
    if queue != [] {
      var n := |queue| - 1;
      var last := queue[n];
      assert queue == queue[..n] + [last] && last in queue;
      ThoseSame(queue[..n], some, others);
    }
  }

  /** One more of a queue is looked at, and belongs to the set or not. */
  lemma ThoseNext(queue: seq<int>, i: nat, some: set<int>, more: bool)
    requires i < |queue| && queue[i] !in queue[..i]
    ensures var some' := if more then some + {queue[i]} else some - {queue[i]};
            Those(queue[..i + 1], some') == Those(queue[..i], some) + if more then [queue[i]] else []
  {
    var some' := if more then some + {queue[i]} else some - {queue[i]};
    assert queue[..i + 1][..i] == queue[..i];
    ThoseSame(queue[..i], some, some');
  }

  lemma QueueDistinct(places: Places, incoming: seq<int>, deferred: seq<int>, taken: seq<int>, preempted: seq<int>, active: set<int>)
    requires Listed(places, incoming, deferred, taken, preempted, active)
    ensures Distinct(preempted) && forall id :: id in preempted ==> id in places && places[id].Preempted?
  {
  }

  // ----- admission

  lemma OwnedAsking(places: Places, active: set<int>, releasing: seq<Release>, reserved: set<int>, granted: set<int>, id: int)
    requires Owned(places, active, releasing, reserved, granted) && id in places && places[id].Taken?
    ensures Owned(places, active, releasing, reserved + {id}, granted + {id})
    ensures (reserved + {id}) - (granted + {id}) == reserved - granted
    ensures reserved + {} == reserved && granted + {} == granted
  {
    hide ReleasingIds;
    assert id in reserved ==> id in granted;
  }

  /** A prefill that fails gives back what its request was granted. */
  lemma OwnedLost(places: Places, active: set<int>, releasing: seq<Release>, reserved: set<int>, granted: set<int>, id: int)
    requires Owned(places, active, releasing, reserved, granted) && id in granted && id !in active
    ensures Owned(places, active, releasing, reserved - {id}, granted - {id})
    ensures (reserved - {id}) - (granted - {id}) == reserved - granted
  {
    hide ReleasingIds;
  }

  /** The questions about one candidate: the second follows a deferral, once room was made. */
  function Asked(answers: (int, nat) -> Decision, id: int, n: nat, eligible: bool): seq<Answer> {
    var first := answers(id, n);
    [Answer(id, first)] + if first.Defer? && eligible then [Answer(id, answers(id, n + 1))] else []
  }

  /** Between two logs a candidate was asked about, or nobody was. */
  ghost predicate Asks(answers: (int, nat) -> Decision, before: seq<Answer>, now: seq<Answer>, id: int) {
    || now == before
    || now == before + Asked(answers, id, |before|, true)
    || now == before + Asked(answers, id, |before|, false)
  }

  /** Those who were deferred and accepted in two successive answers. */
  function Misjudged(log: seq<Answer>): set<int> {
    set k | 0 <= k < |log| - 1 && log[k].decision.Defer? && log[k + 1] == Answer(log[k].id, Accept) :: log[k].id
  }

  lemma NobodyMisjudged()
    ensures Misjudged([]) == {}
  {
  }

  lemma NothingAsked(answers: (int, nat) -> Decision, log: seq<Answer>, id: int)
    ensures Asks(answers, log, log, id) && Misjudged(log[|log|..]) == {}
    ensures forall eligible :: Asks(answers, log, log + Asked(answers, id, |log|, eligible), id)
  {
  }

  lemma MisjudgedAsked(answers: (int, nat) -> Decision, log: seq<Answer>, id: int, eligible: bool)
    ensures var asked, n := Asked(answers, id, |log|, eligible), |log|;
            var again := answers(id, n).Defer? && eligible;
            && log + asked == log + [Answer(id, answers(id, n))] + (if again then [Answer(id, answers(id, n + 1))] else [])
            && (log + asked)[n..] == asked
            && Misjudged(asked) == if again && answers(id, n + 1).Accept? then {id} else {}
  {
    var asked := Asked(answers, id, |log|, eligible);
    assert (log + asked)[|log|..] == asked;
    if |asked| == 2 && asked[1].decision.Accept? {
      assert asked[0].decision.Defer? && asked[0 + 1] == Answer(asked[0].id, Accept);
      assert id in Misjudged(asked);
    }
  }

  /** What the questions about a candidate did to the log and to the leaked requests. */
  ghost predicate Verdict(
    answers: (int, nat) -> Decision, before: seq<Answer>, now: seq<Answer>, id: int, eligible: bool, leaked: set<int>, leaked': set<int>)
  {
    now == before + Asked(answers, id, |before|, eligible) && leaked' == leaked + Misjudged(Asked(answers, id, |before|, eligible))
  }

  lemma VerdictOnce(answers: (int, nat) -> Decision, before: seq<Answer>, id: int, eligible: bool, leaked: set<int>)
    requires answers(id, |before|).Accept?
    ensures Verdict(answers, before, before + [Answer(id, answers(id, |before|))], id, eligible, leaked, leaked)
  {
    MisjudgedAsked(answers, before, id, eligible);
  }

  lemma VerdictTwice(answers: (int, nat) -> Decision, before: seq<Answer>, id: int, eligible: bool, leaked: set<int>)
    requires !answers(id, |before|).Accept?
    ensures var first, n := answers(id, |before|), |before|;
            var again := first.Defer? && eligible;
            var last := if again then answers(id, n + 1) else first;
            Verdict(answers, before, before + [Answer(id, first)] + (if again then [Answer(id, last)] else []), id, eligible,
                    leaked, leaked + if last.Accept? then {id} else {})
  {
    MisjudgedAsked(answers, before, id, eligible);
  }

  lemma AsksMore(answers: (int, nat) -> Decision, first: seq<Answer>, before: seq<Answer>, now: seq<Answer>, id: int)
    requires Asks(answers, before, now, id) && first <= before
    ensures before <= now && first <= now && now[|first|..] == before[|first|..] + now[|before|..]
    ensures forall a :: a in now[|before|..] ==> a.id == id
  {
  }

  lemma MisjudgedJoin(a: seq<Answer>, b: seq<Answer>)
    requires forall x, y :: x in a && y in b ==> x.id != y.id
    ensures Misjudged(a + b) == Misjudged(a) + Misjudged(b)
  {
    var both := a + b;
    if a != [] && b != [] {
      var x, y := a[|a| - 1], b[0];
      assert x in a && y in b && x.id != y.id;
    }
    forall id ensures id in Misjudged(both) <==> id in Misjudged(a) || id in Misjudged(b) {
      if id in Misjudged(both) {
        var k :| 0 <= k < |both| - 1 && both[k].decision.Defer? && both[k + 1] == Answer(both[k].id, Accept) && both[k].id == id;
        if k < |a| {
          if k + 1 < |a| {
            assert a[k + 1] == both[k + 1];
          }
        } else {
          assert b[k - |a|] == both[k] && b[k - |a| + 1] == both[k + 1];
        }
      }
      if id in Misjudged(a) {
        var k :| 0 <= k < |a| - 1 && a[k].decision.Defer? && a[k + 1] == Answer(a[k].id, Accept) && a[k].id == id;
        assert both[k] == a[k] && both[k + 1] == a[k + 1];
      }
      if id in Misjudged(b) {
        var k :| 0 <= k < |b| - 1 && b[k].decision.Defer? && b[k + 1] == Answer(b[k].id, Accept) && b[k].id == id;
        var j := k + |a|;
        assert both[j] == b[k] && both[j + 1] == b[k + 1];
      }
    }
  }

  lemma TakenDistinct(places: Places, incoming: seq<int>, deferred: seq<int>, taken: seq<int>, preempted: seq<int>, active: set<int>)
    requires Listed(places, incoming, deferred, taken, preempted, active)
    ensures Distinct(taken)
  {
  }

  /** Nobody of a queue holds anything yet. */
  ghost predicate NoneGranted(queue: seq<int>, granted: set<int>) {
    forall id :: id in queue ==> id !in granted
  }

  lemma NoneGrantedRest(queue: seq<int>, granted: set<int>)
    requires queue != [] && NoneGranted(queue, granted) && queue[0] !in queue[1..]
    ensures queue[0] !in granted && NoneGranted(queue[1..], granted + {queue[0]}) && granted + {} == granted
  {
    var id := queue[0];
    assert id in queue;
  }

  ghost predicate SomebodyGone(was: set<int>, now: set<int>) {
    exists id :: id in was && id !in now
  }

  lemma SomebodyLeft(was: set<int>, now: set<int>)
    requires |now| < |was|
    ensures SomebodyGone(was, now)
  {
    if forall id :: id in was ==> id in now {
      Smaller(was, now);
    }
  }

  lemma FreshHead(loop: LoopConfig, places: Places, requests: Requests, releasing: seq<Release>, nextId: nat, id: int)
    requires Streaming(loop, places, requests, releasing, nextId) && id in places && places[id].Taken?
    ensures id in requests && requests[id].generated == [] && requests[id].spec.id == id
  {
    StreamingHas(loop, places, requests, releasing, nextId, id);
  }

  lemma FirstFollows(sampler: Sampler, q: Request, states: States)
    requires q.generated == [] && q.spec.id in states && states[q.spec.id] == Kept(q.spec.prompt, |q.spec.prompt|)
    ensures var token := sampler(q.spec.id, q.spec.prompt, q.spec.prompt, 0);
            Follows(sampler, q, token) && ExactState(q.spec, q.generated + [token], states)
  {
    PrefillFollowsSolo(sampler, q.spec);
    var token := sampler(q.spec.id, q.spec.prompt, q.spec.prompt, 0);
    assert q.generated + [token] == [token];
  }

  lemma CandidatesOwnNothing(
    places: Places, incoming: seq<int>, deferred: seq<int>, taken: seq<int>, preempted: seq<int>, active: set<int>,
    releasing: seq<Release>, reserved: set<int>, granted: set<int>)
    requires Listed(places, incoming, deferred, taken, preempted, active)
    requires Owned(places, active, releasing, reserved, granted)
    ensures forall id :: id in deferred + incoming ==> id !in granted
  {
    hide ReleasingIds;
    forall id | id in deferred + incoming ensures id !in granted {
      assert id in deferred || id in incoming;
    }
  }

  lemma QueuesAre(places: Places, incoming: seq<int>, deferred: seq<int>, taken: seq<int>, preempted: seq<int>, active: set<int>)
    requires Listed(places, incoming, deferred, taken, preempted, active)
    ensures forall id :: id in deferred + incoming ==> id in places && (places[id].Incoming? || places[id].Deferred?)
  {
    forall id | id in deferred + incoming ensures id in places && (places[id].Incoming? || places[id].Deferred?) {
      assert id in deferred || id in incoming;
    }
  }

  // ----- decoding

  ghost function Elements(batch: seq<int>): set<int> {
    set id | id in batch
  }

  lemma ElementsNext(batch: seq<int>, i: nat)
    requires i < |batch| && Distinct(batch)
    ensures Elements(batch[i..]) - {batch[i]} == Elements(batch[i + 1..])
    ensures forall j :: i < j < |batch| ==> batch[j] != batch[i]
  {
    assert batch[i..] == [batch[i]] + batch[i + 1..];
  }

  lemma BatchStands(
    places: Places, incoming: seq<int>, deferred: seq<int>, taken: seq<int>, preempted: seq<int>, active: set<int>,
    loop: LoopConfig, requests: Requests, releasing: seq<Release>, nextId: nat, reserved: set<int>, granted: set<int>)
    requires Listed(places, incoming, deferred, taken, preempted, active)
    requires Streaming(loop, places, requests, releasing, nextId)
    requires Owned(places, active, releasing, reserved, granted)
    ensures forall id :: id in active ==>
              && id in places && id in requests && places[id].Active? && id in granted
              && requests[id].spec.id == id && requests[id].generated != []
              && (requests[id].spec.clean ==> requests[id].generated == Solo(loop.sampler, requests[id].spec, |requests[id].generated|))
  {
    hide At, ReleasingIds;
  }

  lemma RowsStand(active: set<int>, requests: Requests, states: States, batch: seq<int>, sampler: Sampler)
    requires Exact(active, requests, states) && forall id :: id in batch ==> id in active
    ensures forall i :: 0 <= i < |batch| ==>
              && batch[i] in requests && batch[i] in states && requests[batch[i]].generated != [] && requests[batch[i]].spec.id == batch[i]
              && (requests[batch[i]].spec.clean ==> states[batch[i]] == Exactly(requests[batch[i]].spec, requests[batch[i]].generated))
  {
    forall i | 0 <= i < |batch|
      ensures && batch[i] in requests && batch[i] in states && requests[batch[i]].generated != [] && requests[batch[i]].spec.id == batch[i]
              && (requests[batch[i]].spec.clean ==> states[batch[i]] == Exactly(requests[batch[i]].spec, requests[batch[i]].generated))
    {
      var id := batch[i];
      assert id in batch && id in active;
    }
  }

  function RowsOf(requests: Requests, batch: seq<int>): (rows: seq<Row>)
    requires forall i :: 0 <= i < |batch| ==> batch[i] in requests
    ensures |rows| == |batch|
    ensures forall i :: 0 <= i < |batch| ==> rows[i] == Row(requests[batch[i]].spec, requests[batch[i]].generated)
  {
    seq(|batch|, i requires 0 <= i < |batch| && batch[i] in requests => Row(requests[batch[i]].spec, requests[batch[i]].generated))
  }

  lemma RowsAre(requests: Requests, batch: seq<int>, rows: seq<Row>)
    requires |rows| == |batch| && Distinct(batch)
    requires forall i :: 0 <= i < |batch| ==>
               batch[i] in requests && requests[batch[i]].spec.id == batch[i] && rows[i] == Row(requests[batch[i]].spec, requests[batch[i]].generated)
    ensures UniqueRows(rows) && Ids(rows) == Elements(batch)
    ensures forall i :: 0 <= i < |batch| ==> rows[i].spec.id == batch[i]
  {
    forall id ensures id in Ids(rows) <==> id in Elements(batch) {
      if id in Elements(batch) {
        var i :| 0 <= i < |batch| && batch[i] == id;
        assert rows[i].spec.id == id;
      }
    }
  }

  function RowOf(q: Request): Row {
    Row(q.spec, q.generated)
  }

  /** The token a reply has for a row. */
  function TokenFor(reply: Reply, rows: seq<Row>, i: nat): Option<Token>
    requires i < |rows|
  {
    if reply.Tokens? && |reply.tokens| == |rows| then Some(reply.tokens[i])
    else if reply.Partial? && Covers(reply, rows) && rows[i].spec.id in reply.samples then Some(reply.samples[rows[i].spec.id])
    else None
  }

  /** A request has taken a token, if there was one and it was not past its deadline. */
  predicate Took(was: Row, now: Request, token: Option<Token>) {
    || (token.Some? && now.generated == was.generated + [token.value])
    || ((token.None? || was.spec.deadline.Some?) && now.generated == was.generated)
  }

  function GivenBy(batch: seq<int>, samples: map<int, Token>): (given: seq<Option<Token>>)
    ensures |given| == |batch|
    ensures forall i :: 0 <= i < |batch| ==> given[i] == if batch[i] in samples then Some(samples[batch[i]]) else None
  {
    seq(|batch|, i requires 0 <= i < |batch| => if batch[i] in samples then Some(samples[batch[i]]) else None)
  }

  /** The first `n` of a batch have taken what they were given, and nobody else changed. */
  ghost predicate Settled(was: Requests, now: Requests, batch: seq<int>, given: seq<Option<Token>>, n: nat) {
    && now.Keys == was.Keys && n <= |batch| == |given|
    && (forall id :: id in now && id !in batch[..n] ==> now[id] == was[id])
    && (forall j :: 0 <= j < n ==> batch[j] in now && Took(RowOf(was[batch[j]]), now[batch[j]], given[j]))
  }

  lemma SettledRows(was: Requests, now: Requests, batch: seq<int>, rows: seq<Row>, reply: Reply, given: seq<Option<Token>>)
    requires Settled(was, now, batch, given, |batch|) && |rows| == |batch| && Ids(rows) == Elements(batch)
    requires forall i :: 0 <= i < |batch| ==>
               batch[i] in was && rows[i] == RowOf(was[batch[i]]) && rows[i].spec.id == batch[i] && given[i] == TokenFor(reply, rows, i)
    ensures now.Keys == was.Keys && forall id :: id in now && id !in Ids(rows) ==> now[id] == was[id]
    ensures forall i :: 0 <= i < |rows| ==> rows[i].spec.id in now && Took(rows[i], now[rows[i].spec.id], TokenFor(reply, rows, i))
  {
    hide Took, TokenFor;
    assert batch[..|batch|] == batch;
  }

  lemma SettledNone(was: Requests, batch: seq<int>, given: seq<Option<Token>>)
    requires |given| == |batch|
    ensures Settled(was, was, batch, given, 0)
  {
  }

  lemma SettledNext(was: Requests, now: Requests, now': Requests, batch: seq<int>, given: seq<Option<Token>>, n: nat)
    requires Settled(was, now, batch, given, n) && n < |batch| && Distinct(batch)
    requires now'.Keys == now.Keys && (forall x :: x in now && x != batch[n] ==> now'[x] == now[x])
    requires batch[n] in now && Took(RowOf(now[batch[n]]), now'[batch[n]], given[n])
    ensures Settled(was, now', batch, given, n + 1)
  {
    hide Took;
    var id := batch[n];
    assert batch[..n + 1] == batch[..n] + [id] && id !in batch[..n];
    assert now[id] == was[id];
    forall j | 0 <= j < n + 1 ensures batch[j] in now' && Took(RowOf(was[batch[j]]), now'[batch[j]], given[j]) {
      if j < n {
        assert batch[j] != id;
      }
    }
  }

  lemma TookOne(was: Request, now: Request, token: Option<Token>, late: bool)
    requires token.Some?
    requires !late ==> now.generated == was.generated + [token.value]
    requires late ==> was.spec.deadline.Some? && now.generated == was.generated
    ensures Took(RowOf(was), now, token)
  {
  }

  lemma DecodedElsewhere(
    active: set<int>, requests: Requests, states: States, states': States, batch: seq<int>, rows: seq<Row>)
    requires Exact(active, requests, states) && Ids(rows) == Elements(batch)
    requires forall id :: id in states && id !in Ids(rows) ==> id in states' && states'[id] == states[id]
    ensures Exact(active - Elements(batch), requests, states')
  {
  }

  /** A row's step is its request's next token. */
  lemma StepIsReady(sampler: Sampler, q: Request, row: Row, states: States, states': States, token: Token)
    requires row == Row(q.spec, q.generated) && q.generated != []
    requires q.spec.clean ==> q.generated == Solo(sampler, q.spec, |q.generated|)
    requires q.spec.id in states && (q.spec.clean ==> states[q.spec.id] == Exactly(q.spec, q.generated))
    requires Advanced(sampler, row, states, states', token)
    ensures Follows(sampler, q, token) && ExactState(q.spec, q.generated + [token], states')
  {
    if q.spec.clean {
      StepFollowsSolo(sampler, q.spec, q.generated);
    }
  }

  lemma DecodedAll(
    active: set<int>, requests: Requests, states: States, states': States, batch: seq<int>, rows: seq<Row>,
    tokens: seq<Token>, sampler: Sampler)
    requires |rows| == |batch| == |tokens|
    requires forall i :: 0 <= i < |batch| ==>
               && batch[i] in requests && requests[batch[i]].spec.id == batch[i] && rows[i] == Row(requests[batch[i]].spec, requests[batch[i]].generated)
               && requests[batch[i]].generated != []
               && (requests[batch[i]].spec.clean ==> requests[batch[i]].generated == Solo(sampler, requests[batch[i]].spec, |requests[batch[i]].generated|))
               && batch[i] in states && (requests[batch[i]].spec.clean ==> states[batch[i]] == Exactly(requests[batch[i]].spec, requests[batch[i]].generated))
               && Advanced(sampler, rows[i], states, states', tokens[i])
    ensures forall i :: 0 <= i < |batch| ==>
              && Follows(sampler, requests[batch[i]], tokens[i])
              && ExactState(requests[batch[i]].spec, requests[batch[i]].generated + [tokens[i]], states')
  {
    hide Advanced, Follows, ExactState, Exactly;
    forall i | 0 <= i < |batch|
      ensures Follows(sampler, requests[batch[i]], tokens[i])
      ensures ExactState(requests[batch[i]].spec, requests[batch[i]].generated + [tokens[i]], states')
    {
      StepIsReady(sampler, requests[batch[i]], rows[i], states, states', tokens[i]);
    }
  }

  lemma DecodedSome(
    active: set<int>, requests: Requests, states: States, states': States, batch: seq<int>, rows: seq<Row>,
    reply: Reply, sampler: Sampler)
    requires |rows| == |batch| && reply.Partial?
    requires forall i :: 0 <= i < |batch| ==>
               && batch[i] in requests && requests[batch[i]].spec.id == batch[i] && rows[i] == Row(requests[batch[i]].spec, requests[batch[i]].generated)
               && requests[batch[i]].generated != []
               && (requests[batch[i]].spec.clean ==> requests[batch[i]].generated == Solo(sampler, requests[batch[i]].spec, |requests[batch[i]].generated|))
               && batch[i] in states && (requests[batch[i]].spec.clean ==> states[batch[i]] == Exactly(requests[batch[i]].spec, requests[batch[i]].generated))
               && (batch[i] in reply.samples ==> Advanced(sampler, rows[i], states, states', reply.samples[batch[i]]))
    ensures forall i :: 0 <= i < |batch| && batch[i] in reply.samples ==>
              && Follows(sampler, requests[batch[i]], reply.samples[batch[i]])
              && ExactState(requests[batch[i]].spec, requests[batch[i]].generated + [reply.samples[batch[i]]], states')
  {
    hide Advanced, Follows, ExactState, Exactly;
    forall i | 0 <= i < |batch| && batch[i] in reply.samples
      ensures Follows(sampler, requests[batch[i]], reply.samples[batch[i]])
      ensures ExactState(requests[batch[i]].spec, requests[batch[i]].generated + [reply.samples[batch[i]]], states')
    {
      StepIsReady(sampler, requests[batch[i]], rows[i], states, states', reply.samples[batch[i]]);
    }
  }

  lemma NothingQueued(requests: Requests, queued: seq<int>, pendingCount: int, pendingTokens: int)
    requires Counted(requests, queued, pendingCount, pendingTokens) && queued == []
    ensures pendingCount == 0 && pendingTokens == 0
  {
  }
}
