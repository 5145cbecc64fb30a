/**
 Short runs of the iteration-level scheduler: a batch that can never be committed, a
 replay shorter than the state it replaces, and one token more than was asked for.
 */
module SchedulerRuns {
  import opened Basics
  import opened BlockManager
  import opened BatchScheduler

  /** A request for so many tokens on a prompt of one. */
  function Asked(n: nat): Request {
    Request([10], n, Waiting, [], 0, false)
  }

  const PAGES := 8

  /** Pages of one token each. */
  lemma OnePageEach(n: nat)
    ensures BlocksRequired(n, 1) == n
  {
  }

  lemma OnlyOne(queue: seq<int>)
    requires Distinct(queue) && forall id :: id in queue <==> id == 0
    ensures queue == [0]
  {
    forall x ensures multiset(queue)[x] == multiset{0}[x] {
      OnceEach(queue, x);
    }
    assert multiset(queue) == multiset{0};
    assert |multiset(queue)| == |queue| == 1;
    var head := queue[0];
    assert head in queue;
  }

  lemma Nobody(queue: seq<int>)
    requires forall id :: id !in queue
    ensures queue == []
  {
    forall x ensures multiset(queue)[x] == 0 {
      assert x !in queue;
    }
    assert multiset(queue) == multiset{};
    assert |multiset(queue)| == |queue|;
  }

  /** The only request is in the queue of its place, and the others are empty. */
  lemma InLine(s: ContinuousBatchScheduler)
    requires s.Books() && s.requests.Keys == {0}
    ensures var place := PlaceOf(s.requests[0]);
            && s.waiting == (if place.Prompting? then [0] else [])
            && s.ready == (if place.Readied? then [0] else [])
            && s.running == (if place.Decoding? then [0] else [])
  {
    hide RequestsOk;
    var place := PlaceOf(s.requests[0]);
    if place.Prompting? { OnlyOne(s.waiting); } else { Nobody(s.waiting); }
    if place.Readied? { OnlyOne(s.ready); } else { Nobody(s.ready); }
    if place.Decoding? { OnlyOne(s.running); } else { Nobody(s.running); }
  }

  /** What the books say about the only request's pages. */
  lemma PagesOf(s: ContinuousBatchScheduler)
    requires s.Books() && 0 in s.requests && Holding(s.requests[0].state) && s.inflight.None? && s.manager.blockSize == 1
    ensures 0 in s.manager.allocations && s.manager.allocations[0].reservedTokens >= TotalTokens(s.requests[0])
    ensures LagOf(s.lags, 0).Some? ==> s.manager.allocations[0].numTokens == Length(s.requests[0], s.lags[0])
    ensures |s.manager.allocations[0].blockIds| >= s.manager.allocations[0].reservedTokens
  {
    assert RequestOk(s.requests[0], 0, s.manager.allocations, LagOf(s.lags, 0), 0 in s.InFlight());
    var a := s.manager.allocations[0];
    assert Sound(s.manager.numBlocks, 1, 0, a);
    OnePageEach(a.reservedTokens);
  }

  /** A step of the only request takes a page at most, and none within its reservation. */
  lemma DemandOfOne(a: BlockAllocation, allocations: Allocations)
    requires allocations == map[0 := a] || (0 in allocations && allocations[0] == a)
    requires |a.blockIds| >= a.reservedTokens
    ensures Demand(allocations, [0], 1) <= Max(0, a.numTokens + 1 - a.reservedTokens)
  {
    assert [0][..0] == [];
    OnePageEach(a.numTokens + 1);
    assert ExtraTotal(allocations, [0], 1, 1) == ExtraTotal(allocations, [], 1, 1) + ExtraBlocks(a, 1, 1);
  }

  lemma WholePrompt(now: Requests, items: seq<PrefillBatchItem>, n: nat)
    requires Continues([0], map[0 := Asked(n)], now, items, 16, 16) && (|items| < 1 ==> Size(items) == 16)
    ensures now == map[0 := Request([10], n, PrefillRunning, [], 1, false)]
  {
    assert |items| == 1;
    assert items[0].id == 0 && [0][0] == 0;
    assert Left(items, 0, 16) == 16 by {
      assert items[..0] == [];
    }
    assert now[0] == Request([10], n, PrefillRunning, [], 1, false);
    assert now.Keys == {0};
  }

  /** A scheduler with one request whose prompt is scheduled, and pages to its end. */
  method Scheduled(n: nat) returns (s: ContinuousBatchScheduler)
    requires n <= 4
    ensures fresh(s) && fresh(s.manager) && s.Books() && s.inflight == None
    ensures s.requests == map[0 := Request([10], n, PrefillRunning, [], 1, false)]
    ensures s.manager.blockSize == 1 && s.manager.headroomBlocks == 0 && |s.manager.free| == PAGES - TotalTokens(Asked(n))
    ensures 0 in s.manager.allocations && s.manager.allocations[0].numTokens == 1 && LagOf(s.lags, 0) == Some(0)
    ensures s.maxDecodeSequences == 1
  {
    hide Consistent, RequestsOk, Listed, Size;
    var manager := new KVBlockManager(PAGES, 1, 0);
    s := new ContinuousBatchScheduler(manager, 1, 16, 16);
    OnePageEach(TotalTokens(Asked(n)));
    var added := s.Add(0, Asked(n));
    assert s.requests == map[0 := Asked(n)];
    InLine(s);
    var items := s.NextPrefillBatch();
    WholePrompt(s.requests, items, n);
    PagesOf(s);
  }

  /** Starts the only request and decodes one step. */
  method Stepped(s: ContinuousBatchScheduler) returns (batch: DecodeBatch)
    requires s.Books() && s.inflight == None && s.requests.Keys == {0} && PlaceOf(s.requests[0]).Prompted?
    requires s.manager.blockSize == 1 && s.manager.headroomBlocks == 0 && |s.manager.free| > 0 && s.maxDecodeSequences == 1
    requires 0 in s.lags && TotalTokens(s.requests[0]) >= Length(s.requests[0], s.lags[0])
    modifies s, s.manager
    ensures s.Books() && s.FlightOk() && s.inflight == Some(batch) && batch.ids == [0] && s.running == [0] && s.lags == old(s.lags)
    ensures s.requests == map[0 := old(s.requests)[0].(state := Running)]
    ensures |s.manager.free| >= |old(s.manager.free)| - Max(0, Length(s.requests[0], s.lags[0]) + 1 - TotalTokens(s.requests[0]))
  {
    hide Consistent, RequestsOk, Listed, Demand, Committed, StillRunning, TokensOf, AllSeeded;
    var q := s.requests[0];
    var marked := s.MarkPrefillComplete(0, false);
    InLine(s);
    PagesOf(s);
    DemandOfOne(s.manager.allocations[0], s.manager.allocations);
    assert [] + [0] == [0] && [0][..1] == [0];
    ghost var before := s.requests;
    var r := s.NextDecodeBatch();
    batch := r.value;
    Started(before, s.requests, q);
  }

  lemma Started(before: Requests, now: Requests, q: Request)
    requires before == map[0 := q.(state := Ready)] && Became(before, now, [0], Running)
    ensures now == map[0 := q.(state := Running)]
  {
    assert 0 in [0];
    assert now.Keys == {0};
  }

  /**
   A request of the in-flight batch is cancelled. The batch can then neither be committed
   nor failed, and no other is ever launched.
   */
  method CancelledInFlight() returns (s: ContinuousBatchScheduler, committed: Result<()>, failed: Result<()>, next: Result<DecodeBatch>)
    ensures s.Books() && s.Wedged()
    ensures committed.Err? && failed.Err? && next == Err(RuntimeError)
  {
    hide Consistent, RequestsOk, Listed, Demand, Committed, StillRunning, TokensOf, AllSeeded;
    s := Scheduled(3);
    s.SeedFirstToken(0, 5);
    var batch := Stepped(s);
    assert 0 in s.InFlight() by {
      assert 0 in batch.ids;
    }
    var cancelled := s.Cancel(0);
    committed := s.CommitDecodeTokens(batch, [6]);
    failed := s.FailDecodeBatch(batch);
    next := s.NextDecodeBatch();
  }

  lemma OneCommitted(before: Requests, now: Requests, token: Token)
    requires before.Keys == {0} && Committed(before, now, [0], [token], 1)
    ensures now == map[0 := Extended(before[0], token)]
  {
    assert [0][0] == 0 && [token][0] == token;
    assert now[0] == Extended(before[0], token);
    assert now.Keys == {0};
  }

  /**
   A request whose first token did not come from its prefill decodes one token and is
   preempted: what it is told to replay is a token shorter than the state it gave up.
   */
  method ShorterReplay() returns (s: ContinuousBatchScheduler, givenUp: nat, plan: RecoveryPlan)
    ensures s.Books() && plan.generated == [5] && givenUp == 2 && plan.replay == [10]
  {
    hide Consistent, RequestsOk, Listed, Demand, Committed, StillRunning, TokensOf, AllSeeded;
    s := Scheduled(3);
    var batch := Stepped(s);
    ghost var before := s.requests;
    var committed := s.CommitDecodeTokens(batch, [5]);
    OneCommitted(before, s.requests, 5);
    InLine(s);
    PagesOf(s);
    givenUp := s.manager.allocations[0].numTokens;
    var preempted := s.Preempt(0);
    OnePageEach(3);
    var r := s.Resume(0);
    plan := r.value;
    assert [10] + [5] == [10, 5] && (plan.replay + [5])[..|plan.replay|] == plan.replay;
    assert [10, 5][..1] == [10];
  }

  /** A request for one token, which its prefill brought, is decoded once more and ends with two. */
  method OneTokenTooMany() returns (s: ContinuousBatchScheduler)
    ensures s.Books() && s.requests == map[0 := Request([10], 1, Finished, [5, 6], 1, true)]
  {
    hide Consistent, RequestsOk, Listed, Demand, Committed, StillRunning, TokensOf, AllSeeded;
    s := Scheduled(1);
    s.SeedFirstToken(0, 5);
    var batch := Stepped(s);
    ghost var before := s.requests;
    var committed := s.CommitDecodeTokens(batch, [6]);
    OneCommitted(before, s.requests, 6);
    assert [5] + [6] == [5, 6];
  }
}
