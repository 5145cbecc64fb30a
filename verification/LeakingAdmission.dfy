/** Two requests with which an admission pass leaks. */
module LeakingAdmission {
  import opened Basics
  import opened GenerationStream
  import opened GenerationBackend
  import opened ServingBooks
  import opened ServingLoop

  lemma OnlyOne(queue: seq<int>, id: int)
    requires multiset(queue) == multiset([id])
    ensures queue == [id]
  {
    assert |multiset(queue)| == |queue| && |multiset([id])| == 1;
    assert queue[0] in multiset(queue);
  }

  /** The first candidate is accepted; the second is deferred, and accepted once there is room. */
  function SecondAccepted(id: int, n: nat): Decision {
    if n == 1 then Defer else Accept
  }

  /** An admission pass over one new request, which its client does not cancel. */
  method PassOverOne(loop: ContinuousGenerationLoop, id: int)
    requires loop.Valid() && loop.taken == [] && loop.deferred == [] && loop.incoming == [id] && |loop.active| < loop.loop.limits.maxActive
    requires id in loop.requests && loop.requests[id].spec.deadline.None? && loop.backend.reliable
    modifies loop, loop.backend
    ensures loop.Valid()
    ensures var b, n, was := loop.backend, |old(loop.backend.answered)|, old(loop.requests)[id];
            && b.answered == old(loop.backend.answered) + Asked(b.answers, id, n, Eligible(old(loop.active), old(loop.requests), loop.loop.limits, id))
            && (b.answers(id, n).Accept? ==>
                  && loop.Started(was, id) && loop.taken == [] && loop.deferred == [] && loop.incoming == []
                  && old(loop.active) <= loop.active <= old(loop.active) + {id})
    ensures loop.nextId == old(loop.nextId)
    ensures loop.Leaked() == old(loop.Leaked()) + Misjudged(loop.backend.answered[|old(loop.backend.answered)|..])
  {
    loop.Queues();
    assert loop.deferred + loop.incoming == [id];
    loop.TakeCandidates();
    OnlyOne(loop.taken, id);
    assert id in [id];
    var slots, budget := loop.AdmitHead(loop.loop.limits.maxActive - |loop.active|, None, false);
  }

  const SMALL := Limits(2, 2, 4, 100, 100, 1, 9)

  function Sevens(id: int, folded: seq<Token>, history: seq<Token>, step: nat): Token {
    7
  }

  /** One request of low priority, which is running. */
  method OneRuns() returns (loop: ContinuousGenerationLoop)
    ensures fresh(loop) && fresh(loop.backend) && loop.Valid() && loop.Leaked() == {}
    ensures loop.loop == LoopConfig(Sevens, SMALL, None) && loop.backend.answers == SecondAccepted && loop.backend.reliable
    ensures loop.nextId == 1 && loop.active == {0} && loop.incoming == loop.deferred == loop.taken == []
    ensures loop.pendingCount == loop.pendingTokens == 0
    ensures 0 in loop.requests && loop.requests[0].spec.priority == 0 && loop.requests[0].preemptions == 0
    ensures loop.backend.answered == [Answer(0, Accept)]
  {
    hide ContinuousGenerationLoop.ValidBut, ContinuousGenerationLoop.Leaked, Eligible, Misjudged;
    hide Asked;
    var backend := new Backend(Sevens, id => true, SecondAccepted, true);
    loop := new ContinuousGenerationLoop(backend, SMALL, None);
    var low := loop.Submit([10], 5, 0, None, false, []);
    assert loop.backend == backend && backend.answers(0, 0) == Accept;
    AskedOnce(SecondAccepted, 0, 0, Eligible(loop.active, loop.requests, SMALL, 0));
    PassOverOne(loop, 0);
    loop.NoQueue();
  }

  /**
   A request runs; a more urgent one comes, is deferred, and pushes the first aside. The
   backend then has room and accepts it. The loop ends it, and nothing that is left to do
   will give its pages and its slot back.
   */
  method SecondAcceptanceLeaks() returns (loop: ContinuousGenerationLoop)
    ensures loop.Valid() && loop.Leaked() == {1}
    ensures loop.backend.answered == [Answer(0, Accept), Answer(1, Defer), Answer(1, Accept)]
  {
    hide ContinuousGenerationLoop.ValidBut, ContinuousGenerationLoop.Leaked, Eligible, Misjudged, Asked;
    loop := OneRuns();
    var high := loop.Submit([20], 5, 1, None, false, []);
    MoreUrgent(loop.active, loop.requests);
    AskedTwice(loop.backend.answered);
    PassOverOne(loop, 1);
  }

  lemma MoreUrgent(active: set<int>, requests: Requests)
    requires active == {0} && 0 in requests && 1 in requests && requests[0].preemptions == 0
    requires requests[0].spec.priority == 0 && requests[1].spec.priority == 1
    ensures Eligible(active, requests, SMALL, 1)
  {
    assert MayFall(requests[1].spec, requests[0], SMALL);
  }

  lemma AskedTwice(before: seq<Answer>)
    requires before == [Answer(0, Accept)]
    ensures var asked := Asked(SecondAccepted, 1, 1, true);
            && asked == [Answer(1, Defer), Answer(1, Accept)]
            && (before + asked)[1..] == asked && Misjudged(asked) == {1}
  {
    MisjudgedAsked(SecondAccepted, before, 1, true);
  }

  lemma AskedOnce(answers: (int, nat) -> Decision, id: int, n: nat, eligible: bool)
    requires answers(id, n).Accept?
    ensures Asked(answers, id, n, eligible) == [Answer(id, Accept)] && Misjudged(([] + Asked(answers, id, n, eligible))[0..]) == {}
  {
  }
}
