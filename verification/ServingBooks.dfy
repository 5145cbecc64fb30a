/**
 The books of the serving loop: every submitted request is in exactly one place, and
 what its handle received, what was generated and what its state folded agree.
 */
module ServingBooks {
  import opened Basics
  import opened GenerationStream
  import opened GenerationBackend
  import opened Queues

  /** Where a request is. `Taken` and `Held` requests are in the hands of the running step. */
  datatype Place = Incoming | Deferred | Taken | Held | Active | Preempted | Ended

  type Places = map<int, Place>

  datatype Event = TokenEvent(token: Token) | FinishedEvent(reason: Reason)

  /** A request whose resources are being released before its terminal event. */
  datatype Release = Release(id: int, reason: Reason)

  /** A submitted request and the handle its caller holds. */
  datatype Request = Request(spec: Spec, generated: seq<Token>, received: seq<Event>, registered: bool, preemptions: nat)

  type Requests = map<int, Request>

  // ----- the admission queue's budget

  function DemandOf(spec: Spec): nat {
    |spec.prompt| + spec.maxNewTokens
  }

  /** The tokens a queue asks for. */
  ghost function Demand(requests: Requests, queue: seq<int>): nat
    requires forall id :: id in queue ==> id in requests
  {
    if queue == [] then 0
    else
      var id := queue[0];
      assert id in queue;
      DemandOf(requests[id].spec) + Demand(requests, queue[1..])
  }

  lemma {:induction false} DemandAppend(requests: Requests, a: seq<int>, b: seq<int>)
    requires forall id :: id in a + b ==> id in requests
    ensures (forall id :: id in a ==> id in requests) && forall id :: id in b ==> id in requests
    ensures Demand(requests, a + b) == Demand(requests, a) + Demand(requests, b)
    decreases |a|
  {
    forall id | id in a || id in b ensures id in requests {
      assert id in a + b;
    }
    if a == [] {
      assert a + b == b;
    } else {
      assert (a + b)[1..] == a[1..] + b;
      DemandAppend(requests, a[1..], b);
      assert (a + b)[0] == a[0];
    }
  }

  lemma {:induction false} DemandSame(requests: Requests, requests': Requests, queue: seq<int>)
    requires forall id :: id in queue ==> id in requests && id in requests' && requests'[id].spec == requests[id].spec
    ensures Demand(requests', queue) == Demand(requests, queue)
  {
    if queue != [] {
      var id := queue[0];
      assert id in queue && requests'[id].spec == requests[id].spec;
      DemandSame(requests, requests', queue[1..]);
    }
  }

  lemma DemandInsert(requests: Requests, b: seq<int>, i: nat)
    requires i < |b| && forall id :: id in b ==> id in requests
    ensures b[i] in requests && forall id :: id in b[..i] + b[i + 1..] ==> id in requests
    ensures Demand(requests, b) == DemandOf(requests[b[i]].spec) + Demand(requests, b[..i] + b[i + 1..])
  {
    var x, tail := b[i], b[i + 1..];
    assert x in b;
    assert b == b[..i] + ([x] + tail);
    DemandAppend(requests, b[..i], [x] + tail);
    DemandAppend(requests, b[..i], tail);
    assert ([x] + tail)[1..] == tail;
  }

  lemma TakeOut(b: seq<int>, x: int) returns (i: nat)
    requires x in multiset(b)
    ensures i < |b| && b[i] == x && multiset(b[..i] + b[i + 1..]) == multiset(b) - multiset{x}
  {
    i :| 0 <= i < |b| && b[i] == x;
    assert b == b[..i] + [x] + b[i + 1..];
  }

  lemma DemandHead(requests: Requests, a: seq<int>)
    requires a != [] && forall id :: id in a ==> id in requests
    ensures a[0] in requests && Demand(requests, a) == DemandOf(requests[a[0]].spec) + Demand(requests, a[1..])
  {
    var id := a[0];
    assert id in a;
  }

  lemma {:induction false} DemandOrder(requests: Requests, a: seq<int>, b: seq<int>)
    requires multiset(a) == multiset(b) && forall id :: id in a ==> id in requests
    ensures forall id :: id in b ==> id in requests
    ensures Demand(requests, a) == Demand(requests, b)
    decreases |a|
  {
    hide DemandOf, Demand;
    forall id | id in b ensures id in requests {
      assert id in multiset(b);
      assert id in a;
    }
    if a == [] {
      assert |multiset(b)| == 0;
      assert a == b;
    } else {
      assert a == [a[0]] + a[1..];
      DemandHead(requests, a);
      var i := TakeOut(b, a[0]);
      DemandInsert(requests, b, i);
      DemandOrder(requests, a[1..], b[..i] + b[i + 1..]);
    }
  }

  // ----- streams

  function TokenEvents(g: seq<Token>): (events: seq<Event>)
    ensures |events| == |g| && forall i :: 0 <= i < |g| ==> events[i] == TokenEvent(g[i])
  {
    seq(|g|, i requires 0 <= i < |g| => TokenEvent(g[i]))
  }

  lemma TokenEventsNext(g: seq<Token>, token: Token)
    ensures TokenEvents(g + [token]) == TokenEvents(g) + [TokenEvent(token)]
  {
  }

  /**
   A stream may be said to have ended like this: it stopped, or had its full length, or
   was cancelled before either. It may fail anywhere.
   */
  ghost predicate Justified(spec: Spec, eos: Option<Token>, g: seq<Token>, reason: Reason) {
    match reason
    case Stop => Stopped(spec, eos, g)
    case Length => !Stopped(spec, eos, g) && |g| == spec.maxNewTokens
    case Cancelled => !Stopped(spec, eos, g) && |g| < spec.maxNewTokens
    case Failed => true
  }

  /** What a handle received: the generated tokens, and at most one terminal event after them, which is true. */
  ghost predicate Received(events: seq<Event>, spec: Spec, eos: Option<Token>, g: seq<Token>, finished: bool) {
    if finished then exists reason :: events == TokenEvents(g) + [FinishedEvent(reason)] && Justified(spec, eos, g, reason)
    else events == TokenEvents(g)
  }

  /** A clean request's stream so far is the one it would have alone, and any stream fits its place. */
  ghost predicate StreamOk(sampler: Sampler, eos: Option<Token>, spec: Spec, g: seq<Token>, p: Place) {
    && spec.maxNewTokens > 0
    && (spec.clean ==> g == Solo(sampler, spec, |g|))
    && Unended(spec, eos, g)
    && (p.Active? || p.Preempted? ==> g != [])
    && (p.Incoming? || p.Deferred? || p.Taken? ==> g == [])
    && (g != [] && !p.Ended? ==> FinishReason(spec, eos, g).None?)
  }

  /** The reason a stream's own token gives for its end is true of it. */
  lemma OwnEnd(sampler: Sampler, spec: Spec, eos: Option<Token>, g: seq<Token>)
    requires StreamOk(sampler, eos, spec, g, Ended) && g != [] && FinishReason(spec, eos, g).Some?
    ensures Justified(spec, eos, g, FinishReason(spec, eos, g).value)
  {
    hide FinishReason, Stopped;
    EndsIff(spec, eos, g);
    UnendedIsShort(spec, eos, g);
  }

  /** Where a request has not ended, it may be cancelled. */
  lemma NotAtItsEnd(sampler: Sampler, spec: Spec, eos: Option<Token>, g: seq<Token>, p: Place)
    requires StreamOk(sampler, eos, spec, g, p) && !p.Ended?
    ensures !Stopped(spec, eos, g) && |g| < spec.maxNewTokens
    ensures Justified(spec, eos, g, Cancelled)
  {
    hide FinishReason;
    if g != [] {
      EndsIff(spec, eos, g);
    }
  }

  /** An active request has a state, and if it is clean then the one it needs to go on, at the right length. */
  ghost predicate ExactState(spec: Spec, g: seq<Token>, states: States) {
    g != [] && spec.id in states && (spec.clean ==> states[spec.id] == Exactly(spec, g))
  }
}
