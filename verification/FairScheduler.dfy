/**
 Weighted fair selection of decode requests: less service, a higher priority, a longer
 wait and a closer deadline all move a request forward, and waiting always wins in the
 end.
 */
module FairScheduler {
  import opened Basics

  datatype Config = Config(maxPriority: nat, priorityBias: real, agingWeight: real, deadlineBias: real, urgencyWindow: real) {
    predicate Valid() {
      priorityBias >= 0.0 && agingWeight > 0.0 && deadlineBias >= 0.0 && urgencyWindow > 0.0
    }
  }

  datatype Request = Request(id: int, priority: int, deadline: Option<real>)

  datatype Account = Account(service: nat, lastServed: nat)

  type Accounts = map<int, Account>

  /** A request's place in the order: its score, and its id to break ties. */
  datatype Rank = Rank(score: real, id: int)

  predicate Before(x: Rank, y: Rank) {
    x.score < y.score || (x.score == y.score && x.id < y.id)
  }

  function Urgency(config: Config, deadline: Option<real>, now: real): (u: real)
    requires config.Valid()
    ensures u >= 0.0
    ensures (deadline.None? || now <= deadline.value) ==> u <= 1.0
  {
    if deadline.None? then 0.0
    else
      var remaining := deadline.value - now;
      Quotient(remaining, config.urgencyWindow);
      var u := 1.0 - remaining / config.urgencyWindow;
      if u > 0.0 then u else 0.0
  }

  lemma Quotient(x: real, y: real)
    requires y > 0.0
    ensures x >= 0.0 ==> x / y >= 0.0
  {
  }

  function Score(config: Config, q: Request, a: Account, round: nat, now: real): real
    requires config.Valid() && 0 <= q.priority && a.lastServed <= round
  {
    a.service as real / (q.priority + 1) as real
    - config.priorityBias * q.priority as real
    - config.agingWeight * (round - a.lastServed) as real
    - config.deadlineBias * Urgency(config, q.deadline, now)
  }

  // ----- the accounts

  function Ids(requests: seq<Request>): set<int> {
    set q | q in requests :: q.id
  }

  function Retained(accounts: Accounts, live: set<int>): Accounts {
    map id | id in accounts && id in live :: accounts[id]
  }

  /** New candidates start as if they had been served in the previous round. */
  function Registered(accounts: Accounts, requests: seq<Request>, round: nat): (registered: Accounts)
    requires round > 0
    ensures registered.Keys == accounts.Keys + Ids(requests)
    ensures forall id :: id in registered ==> registered[id] == if id in accounts then accounts[id] else Account(0, round - 1)
  {
    map id | id in accounts.Keys + Ids(requests) :: if id in accounts then accounts[id] else Account(0, round - 1)
  }

  /** The account a request has, or would be given, in the round after `round`. */
  function AccountOf(accounts: Accounts, id: int, round: nat): Account {
    if id in accounts then accounts[id] else Account(0, round)
  }

  lemma RegisterNone(accounts: Accounts, requests: seq<Request>, round: nat)
    requires round > 0
    ensures Registered(accounts, requests[..0], round) == accounts
  {
  }

  lemma RegisterNext(accounts: Accounts, requests: seq<Request>, i: nat, round: nat)
    requires round > 0 && i < |requests|
    ensures var before, id := Registered(accounts, requests[..i], round), requests[i].id;
            Registered(accounts, requests[..i + 1], round) == if id in before then before else before[id := Account(0, round - 1)]
  {
    assert requests[..i + 1] == requests[..i] + [requests[i]];
    assert Ids(requests[..i + 1]) == Ids(requests[..i]) + {requests[i].id};
  }

  function Served(accounts: Accounts, selected: seq<Request>, round: nat): Accounts {
    map id | id in accounts :: if id in Ids(selected) then Account(accounts[id].service + 1, round) else accounts[id]
  }

  predicate Current(accounts: Accounts, round: nat) {
    forall id :: id in accounts ==> accounts[id].lastServed <= round
  }

  predicate UniqueIds(requests: seq<Request>) {
    forall i, j :: 0 <= i < j < |requests| ==> requests[i].id != requests[j].id
  }

  predicate Ranked(config: Config, q: Request) {
    0 <= q.priority <= config.maxPriority
  }

  datatype Candidate = Candidate(request: Request, rank: Rank)

  /** `cs` are the candidates of a round, in the given order, each with its rank. */
  ghost predicate Scored(config: Config, accounts: Accounts, requests: seq<Request>, round: nat, clock: seq<real>, cs: seq<Candidate>) {
    && config.Valid()
    && |cs| == |requests| == |clock|
    && forall i :: 0 <= i < |cs| ==>
         && requests[i].id in accounts
         && Ranked(config, requests[i])
         && accounts[requests[i].id].lastServed <= round
         && cs[i] == Candidate(requests[i], Rank(Score(config, requests[i], accounts[requests[i].id], round, clock[i]), requests[i].id))
  }

  lemma ScoredNone(config: Config, accounts: Accounts, requests: seq<Request>, round: nat, clock: seq<real>)
    requires config.Valid() && |requests| == |clock|
    ensures Scored(config, accounts, requests[..0], round, clock[..0], [])
  {
  }

  lemma ScoredNext(
    config: Config, accounts: Accounts, accounts': Accounts, requests: seq<Request>, round: nat, clock: seq<real>, cs: seq<Candidate>, i: nat)
    requires i < |requests| == |clock| && Scored(config, accounts, requests[..i], round, clock[..i], cs)
    requires forall id :: id in accounts ==> id in accounts' && accounts'[id] == accounts[id]
    requires requests[i].id in accounts' && accounts'[requests[i].id].lastServed <= round && Ranked(config, requests[i])
    ensures var q := requests[i];
            Scored(config, accounts', requests[..i + 1], round, clock[..i + 1],
                   cs + [Candidate(q, Rank(Score(config, q, accounts'[q.id], round, clock[i]), q.id))])
  {
    hide Score, Ranked;
  }

  // ----- who is favoured

  /** A candidate as a round finds it: the request, its account and the time read for it. */
  datatype Standing = Standing(q: Request, a: Account, now: real)

  /** Nothing speaks for `x` against `y`: `y` has no lower priority, no more service, no shorter wait and no later deadline. */
  ghost predicate NotBehind(y: Standing, x: Standing) {
    && y.q.priority >= x.q.priority
    && y.a.service <= x.a.service
    && y.a.lastServed <= x.a.lastServed
    && (x.q.deadline.Some? ==> y.q.deadline.Some? && y.q.deadline.value - y.now <= x.q.deadline.value - x.now)
  }

  /** Something speaks for `y`, if only its smaller id. A priority or a deadline does so where the configuration gives it weight. */
  ghost predicate AheadIn(config: Config, y: Standing, x: Standing) {
    || y.a.lastServed < x.a.lastServed
    || y.a.service < x.a.service
    || (y.q.priority > x.q.priority && (config.priorityBias > 0.0 || x.a.service > 0))
    || (config.deadlineBias > 0.0 && y.q.deadline.Some? && y.q.deadline.value - y.now < config.urgencyWindow
        && (x.q.deadline.None? || y.q.deadline.value - y.now < x.q.deadline.value - x.now))
    || y.q.id < x.q.id
  }

  lemma SmallerProduct(k: real, x: real, y: real)
    requires k >= 0.0 && x <= y
    ensures k * x <= k * y
    ensures k > 0.0 && x < y ==> k * x < k * y
  {
    var d := y - x;
    assert k * y - k * x == k * d;
    assert d >= 0.0;
    NonNegative(k, d);
  }

  lemma NonNegative(x: real, y: real)
    requires x >= 0.0 && y >= 0.0
    ensures x * y >= 0.0
    ensures x > 0.0 && y > 0.0 ==> x * y > 0.0
  {
  }

  /** Less service, or more weight to divide it by, is the smaller share. */
  lemma SmallerShare(s: nat, t: nat, v: nat, w: nat)
    requires s <= t && v >= w > 0
    ensures s as real / v as real <= t as real / w as real
    ensures s < t || (v > w && t > 0) ==> s as real / v as real < t as real / w as real
  {
    var x, y := s as real / v as real, t as real / w as real;
    assert x * v as real == s as real && y * w as real == t as real;
    if x >= y {
      assert y >= 0.0 by {
        if y < 0.0 {
          NonNegative(-y, w as real);
        }
      }
      SmallerProduct(v as real, y, x);
      SmallerProduct(y, w as real, v as real);
      assert v as real * x == s as real && y * w as real == t as real;
    }
  }

  /** A deadline that is no farther away is no less urgent, and a closer one within the window is more urgent. */
  lemma CloserIsMoreUrgent(config: Config, y: Standing, x: Standing)
    requires config.Valid() && NotBehind(y, x)
    ensures Urgency(config, y.q.deadline, y.now) >= Urgency(config, x.q.deadline, x.now)
    ensures y.q.deadline.Some? && y.q.deadline.value - y.now < config.urgencyWindow
            && (x.q.deadline.None? || y.q.deadline.value - y.now < x.q.deadline.value - x.now) ==>
              Urgency(config, y.q.deadline, y.now) > Urgency(config, x.q.deadline, x.now)
  {
    var w := config.urgencyWindow;
    if y.q.deadline.Some? {
      var near := y.q.deadline.value - y.now;
      SmallerQuotient(near, w, w);
      if x.q.deadline.Some? {
        SmallerQuotient(near, x.q.deadline.value - x.now, w);
      }
    }
  }

  lemma SmallerQuotient(a: real, b: real, w: real)
    requires w > 0.0
    ensures a <= b ==> a / w <= b / w
    ensures a < b ==> a / w < b / w
    ensures w / w == 1.0
  {
    var x, y := a / w, b / w;
    TimesQuotient(a, w);
    TimesQuotient(b, w);
    if x > y {
      SmallerProduct(w, y, x);
    }
  }

  lemma TimesQuotient(a: real, w: real)
    requires w > 0.0
    ensures w * (a / w) == a
  {
  }

  /** The four terms of a score. */
  datatype Terms = Terms(share: real, boost: real, wait: real, urge: real)

  function TermsOf(config: Config, s: Standing, round: nat): Terms
    requires config.Valid() && 0 <= s.q.priority && s.a.lastServed <= round
  {
    Terms(s.a.service as real / (s.q.priority + 1) as real, config.priorityBias * s.q.priority as real,
          config.agingWeight * (round - s.a.lastServed) as real, config.deadlineBias * Urgency(config, s.q.deadline, s.now))
  }

  lemma ScoreSums(config: Config, s: Standing, round: nat)
    requires config.Valid() && 0 <= s.q.priority && s.a.lastServed <= round
    ensures var t := TermsOf(config, s, round); Score(config, s.q, s.a, round, s.now) == t.share - t.boost - t.wait - t.urge
  {
    hide Urgency;
  }

  lemma ShareOrder(config: Config, y: Standing, x: Standing, round: nat)
    requires config.Valid() && 0 <= x.q.priority && x.a.lastServed <= round && NotBehind(y, x)
    ensures var t, u := TermsOf(config, y, round).share, TermsOf(config, x, round).share;
            t <= u && (y.a.service < x.a.service || (y.q.priority > x.q.priority && x.a.service > 0) ==> t < u)
  {
    hide Urgency;
    SmallerShare(y.a.service, x.a.service, y.q.priority + 1, x.q.priority + 1);
  }

  lemma BoostOrder(config: Config, y: Standing, x: Standing, round: nat)
    requires config.Valid() && 0 <= x.q.priority && x.a.lastServed <= round && NotBehind(y, x)
    ensures var t, u := TermsOf(config, y, round).boost, TermsOf(config, x, round).boost;
            t >= u && (y.q.priority > x.q.priority && config.priorityBias > 0.0 ==> t > u)
  {
    hide Urgency;
    var p, r := x.q.priority as real, y.q.priority as real;
    assert p <= r && (y.q.priority > x.q.priority ==> p < r);
    SmallerProduct(config.priorityBias, p, r);
  }

  lemma WaitOrder(config: Config, y: Standing, x: Standing, round: nat)
    requires config.Valid() && 0 <= x.q.priority && x.a.lastServed <= round && NotBehind(y, x)
    ensures var t, u := TermsOf(config, y, round).wait, TermsOf(config, x, round).wait;
            t >= u && (y.a.lastServed < x.a.lastServed ==> t > u)
  {
    hide Urgency;
    var p, r := (round - x.a.lastServed) as real, (round - y.a.lastServed) as real;
    assert p <= r && (y.a.lastServed < x.a.lastServed ==> p < r);
    SmallerProduct(config.agingWeight, p, r);
  }

  lemma UrgeOrder(config: Config, y: Standing, x: Standing, round: nat)
    requires config.Valid() && 0 <= x.q.priority && x.a.lastServed <= round && NotBehind(y, x)
    ensures var t, u := TermsOf(config, y, round).urge, TermsOf(config, x, round).urge;
            && t >= u
            && ((config.deadlineBias > 0.0 && y.q.deadline.Some? && y.q.deadline.value - y.now < config.urgencyWindow
                 && (x.q.deadline.None? || y.q.deadline.value - y.now < x.q.deadline.value - x.now)) ==> t > u)
  {
    CloserIsMoreUrgent(config, y, x);
    hide Urgency;
    SmallerProduct(config.deadlineBias, Urgency(config, x.q.deadline, x.now), Urgency(config, y.q.deadline, y.now));
  }

  lemma FavouredTerms(config: Config, y: Standing, x: Standing, round: nat)
    requires config.Valid() && 0 <= x.q.priority && x.a.lastServed <= round && NotBehind(y, x)
    ensures y.a.lastServed <= round
    ensures var t, u := TermsOf(config, y, round), TermsOf(config, x, round);
            && t.share <= u.share && t.boost >= u.boost && t.wait >= u.wait && t.urge >= u.urge
            && (AheadIn(config, y, x) && y.q.id >= x.q.id ==>
                  t.share < u.share || t.boost > u.boost || t.wait > u.wait || t.urge > u.urge)
  {
    hide Urgency, TermsOf;
    ShareOrder(config, y, x, round);
    BoostOrder(config, y, x, round);
    WaitOrder(config, y, x, round);
    UrgeOrder(config, y, x, round);
  }

  /** Whoever is nowhere behind and somewhere ahead ranks first. */
  lemma FavouredRanksFirst(config: Config, y: Standing, x: Standing, round: nat)
    requires config.Valid() && Ranked(config, x.q) && Ranked(config, y.q) && x.a.lastServed <= round
    requires NotBehind(y, x) && AheadIn(config, y, x)
    ensures y.a.lastServed <= round
    ensures Before(Rank(Score(config, y.q, y.a, round, y.now), y.q.id), Rank(Score(config, x.q, x.a, round, x.now), x.q.id))
  {
    FavouredTerms(config, y, x, round);
    ScoreSums(config, y, round);
    ScoreSums(config, x, round);
    hide Score, TermsOf, Urgency, NotBehind, AheadIn;
  }

  // ----- sorting

  predicate Ascending(cs: seq<Candidate>) {
    forall i, j :: 0 <= i < j < |cs| ==> !Before(cs[j].rank, cs[i].rank)
  }

  function Sorted(cs: seq<Candidate>): (sorted: seq<Candidate>)
    ensures multiset(sorted) == multiset(cs) && |sorted| == |cs|
    ensures Ascending(sorted)
  {
    if cs == [] then []
    else
      assert cs == cs[..|cs| - 1] + [cs[|cs| - 1]];
      Inserted(Sorted(cs[..|cs| - 1]), cs[|cs| - 1])
  }

  function Inserted(cs: seq<Candidate>, c: Candidate): (sorted: seq<Candidate>)
    requires Ascending(cs)
    ensures multiset(sorted) == multiset(cs) + multiset{c} && |sorted| == |cs| + 1
    ensures Ascending(sorted)
  {
    if cs == [] then [c]
    else if Before(c.rank, cs[0].rank) then [c] + cs
    else
      assert cs == [cs[0]] + cs[1..];
      var rest := Inserted(cs[1..], c);
      assert forall x :: x in rest <==> x in multiset(rest);
      assert forall x :: x in cs[1..] <==> x in multiset(cs[1..]);
      assert forall x :: x in rest ==> !Before(x.rank, cs[0].rank);
      [cs[0]] + rest
  }

  // ----- one round

  /** `selected` are the first `limit` requests in rank order. */
  ghost predicate FirstByRank(cs: seq<Candidate>, limit: nat, selected: seq<Request>) {
    exists sorted :: PicksFirst(cs, limit, selected, sorted)
  }

  ghost predicate PicksFirst(cs: seq<Candidate>, limit: nat, selected: seq<Request>, sorted: seq<Candidate>) {
    && multiset(sorted) == multiset(cs) && Ascending(sorted)
    && |selected| == Min(limit, |sorted|)
    && forall i :: 0 <= i < |selected| ==> selected[i] == sorted[i].request
  }

  lemma RankedFirstIsPicked(cs: seq<Candidate>, limit: nat, selected: seq<Request>, i: nat, j: nat)
    requires FirstByRank(cs, limit, selected) && i < |cs| && j < |cs|
    requires forall k, l :: 0 <= k < l < |cs| ==> cs[k].request.id != cs[l].request.id
    requires cs[i].request in selected && Before(cs[j].rank, cs[i].rank)
    ensures cs[j].request in selected
  {
    var sorted: seq<Candidate> :| PicksFirst(cs, limit, selected, sorted);
    var k :| 0 <= k < |selected| && selected[k] == cs[i].request;
    assert forall l :: |selected| <= l < |sorted| ==> !Before(sorted[l].rank, sorted[k].rank);
    assert sorted[k] in multiset(sorted);
    var m :| 0 <= m < |cs| && cs[m] == sorted[k];
    assert m == i;
    assert cs[j] in multiset(cs) && cs[j] in multiset(sorted);
    var l :| 0 <= l < |sorted| && sorted[l] == cs[j];
    assert sorted[l].rank == cs[j].rank;
  }

  /** The candidate `i` of a round. */
  ghost function StandingAt(accounts: Accounts, round: nat, requests: seq<Request>, clock: seq<real>, i: nat): Standing
    requires i < |requests| == |clock|
  {
    Standing(requests[i], AccountOf(accounts, requests[i].id, round), clock[i])
  }

  /** A round that serves somebody serves everybody who is favoured over him. */
  ghost predicate FavouredFirst(
    config: Config, accounts: Accounts, round: nat, requests: seq<Request>, clock: seq<real>, selected: seq<Request>)
  {
    |requests| == |clock| &&
    forall i, j :: 0 <= i < |requests| && 0 <= j < |requests| && requests[i] in selected
                   && NotBehind(StandingAt(accounts, round, requests, clock, j), StandingAt(accounts, round, requests, clock, i))
                   && AheadIn(config, StandingAt(accounts, round, requests, clock, j), StandingAt(accounts, round, requests, clock, i)) ==>
      requests[j] in selected
  }

  lemma RoundFavours(
    config: Config, accounts: Accounts, round: nat, requests: seq<Request>, clock: seq<real>, cs: seq<Candidate>, limit: nat, selected: seq<Request>)
    requires UniqueIds(requests) && Current(accounts, round)
    requires Scored(config, Registered(Retained(accounts, Ids(requests)), requests, round + 1), requests, round + 1, clock, cs)
    requires FirstByRank(cs, limit, selected)
    ensures FavouredFirst(config, accounts, round, requests, clock, selected)
  {
    hide FirstByRank, Score, NotBehind, AheadIn, Before;
    var registered := Registered(Retained(accounts, Ids(requests)), requests, round + 1);
    forall i | 0 <= i < |requests|
      ensures requests[i].id in registered && registered[requests[i].id] == AccountOf(accounts, requests[i].id, round)
    {
      assert requests[i] in requests;
    }
    forall i, j | 0 <= i < |requests| && 0 <= j < |requests| && requests[i] in selected
                  && NotBehind(StandingAt(accounts, round, requests, clock, j), StandingAt(accounts, round, requests, clock, i))
                  && AheadIn(config, StandingAt(accounts, round, requests, clock, j), StandingAt(accounts, round, requests, clock, i))
      ensures requests[j] in selected
    {
      FavouredRanksFirst(config, StandingAt(accounts, round, requests, clock, j), StandingAt(accounts, round, requests, clock, i), round + 1);
      RankedFirstIsPicked(cs, limit, selected, i, j);
    }
  }

  /** Each candidate's account after a round: one more service now, or what it was. */
  ghost predicate Charged(accounts: Accounts, round: nat, requests: seq<Request>, selected: seq<Request>, accounts': Accounts) {
    && (forall id :: id in accounts' <==> exists q :: q in requests && q.id == id)
    && forall q :: q in requests ==>
         var a := AccountOf(accounts, q.id, round);
         accounts'[q.id] == if q in selected then Account(a.service + 1, round + 1) else a
  }

  lemma RoundCharges(accounts: Accounts, round: nat, requests: seq<Request>, selected: seq<Request>)
    requires UniqueIds(requests) && forall q :: q in selected ==> q in requests
    ensures Charged(accounts, round, requests, selected, Served(Registered(Retained(accounts, Ids(requests)), requests, round + 1), selected, round + 1))
  {
    var registered := Registered(Retained(accounts, Ids(requests)), requests, round + 1);
    forall q | q in requests ensures q.id in registered && (q.id in Ids(selected) <==> q in selected) {
      if q.id in Ids(selected) {
        var p :| p in selected && p.id == q.id;
        assert p in requests;
      }
    }
  }

  lemma PickedAreAsked(cs: seq<Candidate>, limit: nat, selected: seq<Request>, requests: seq<Request>)
    requires FirstByRank(cs, limit, selected) && |cs| == |requests| && forall i :: 0 <= i < |cs| ==> cs[i].request == requests[i]
    ensures |selected| == Min(limit, |requests|) && forall q :: q in selected ==> q in requests
  {
    var sorted: seq<Candidate> :| PicksFirst(cs, limit, selected, sorted);
    assert |multiset(sorted)| == |sorted| && |multiset(cs)| == |cs|;
    forall q | q in selected ensures q in requests {
      var k :| 0 <= k < |selected| && selected[k] == q;
      assert sorted[k] in multiset(sorted);
      var m :| 0 <= m < |cs| && cs[m] == sorted[k];
      assert requests[m] == q;
    }
  }

  lemma RoundIs(
    config: Config, accounts: Accounts, round: nat, requests: seq<Request>, clock: seq<real>, cs: seq<Candidate>, limit: nat, selected: seq<Request>)
    requires UniqueIds(requests) && Current(accounts, round)
    requires Scored(config, Registered(Retained(accounts, Ids(requests)), requests, round + 1), requests, round + 1, clock, cs)
    requires FirstByRank(cs, limit, selected)
    ensures |selected| == Min(limit, |requests|) && forall q :: q in selected ==> q in requests
    ensures FavouredFirst(config, accounts, round, requests, clock, selected)
    ensures var accounts' := Served(Registered(Retained(accounts, Ids(requests)), requests, round + 1), selected, round + 1);
            Charged(accounts, round, requests, selected, accounts') && Current(accounts', round + 1)
  {
    hide FirstByRank, Score, FavouredFirst, Charged;
    PickedAreAsked(cs, limit, selected, requests);
    RoundFavours(config, accounts, round, requests, clock, cs, limit, selected);
    RoundCharges(accounts, round, requests, selected);
  }

  class FairDecodeScheduler {
    const config: Config
    var round: nat
    var accounts: Accounts

    ghost predicate Valid()
      reads this
    {
      config.Valid() && Current(accounts, round)
    }

    constructor (config: Config)
      requires config.Valid()
      ensures Valid() && this.config == config && round == 0 && accounts == map[]
    {
      this.config := config;
      round := 0;
      accounts := map[];
    }

    /**
     Selects up to `limit` requests; `clock` is the time read for each of them. An
     unacceptable priority is only noticed after the round began.
     */
    method Select(requests: seq<Request>, limit: int, clock: seq<real>) returns (r: Result<seq<Request>>)
      requires Valid() && |clock| == |requests|
      modifies this`round, this`accounts
      ensures Valid()
      ensures r == Err(ValueError) <==>
                || limit <= 0
                || !UniqueIds(requests)
                || exists i :: 0 <= i < |requests| && !(0 <= requests[i].priority <= config.maxPriority)
      ensures r.Err? ==> r.error == ValueError
      ensures limit <= 0 || requests == [] || !UniqueIds(requests) ==> round == old(round) && accounts == old(accounts)
      ensures limit > 0 && requests == [] ==> r == Ok([])
      ensures r.Ok? && requests != [] ==> Round(config, old(accounts), old(round), requests, limit, clock, r.value, accounts, round)
      ensures r.Ok? && requests != [] ==>
                && round == old(round) + 1 && |r.value| == Min(limit, |requests|) && (forall q :: q in r.value ==> q in requests)
                && FavouredFirst(config, old(accounts), old(round), requests, clock, r.value)
                && Charged(old(accounts), old(round), requests, r.value, accounts)
      ensures r.Err? && limit > 0 && UniqueIds(requests) ==>
                && round == old(round) + 1
                && exists i :: 0 <= i < |requests| && !Ranked(config, requests[i])
                            && (forall j :: 0 <= j < i ==> Ranked(config, requests[j]))
                            && accounts == Registered(Retained(old(accounts), Ids(requests)), requests[..i], round)
    {
      hide Registered, Served, Scored, FavouredFirst, Charged, Ascending;
      if limit <= 0 {
        return Err(ValueError);
      }
      if requests == [] {
        return Ok([]);
      }
      if !UniqueIds(requests) {
        return Err(ValueError);
      }
      round := round + 1;
      accounts := Retained(accounts, Ids(requests));
      var scored := Rate(requests, clock);
      if scored.None? {
        return Err(ValueError);
      }
      var sorted := Sorted(scored.value);
      var n := Min(limit, |sorted|);
      var selected := seq(n, i requires 0 <= i < n => sorted[i].request);
      assert PicksFirst(scored.value, limit, selected, sorted);
      RoundIs(config, old(accounts), old(round), requests, clock, scored.value, limit, selected);
      accounts := Served(accounts, selected, round);
      r := Ok(selected);
    }

    /** Scores the candidates in order, opening accounts as it meets new ones. */
    method Rate(requests: seq<Request>, clock: seq<real>) returns (scored: Option<seq<Candidate>>)
      requires Valid() && round > 0 && |clock| == |requests|
      modifies this`accounts
      ensures Valid()
      ensures scored.None? <==> exists i :: 0 <= i < |requests| && !Ranked(config, requests[i])
      ensures scored.Some? ==>
                && accounts == Registered(old(accounts), requests, round)
                && Scored(config, accounts, requests, round, clock, scored.value)
      ensures scored.None? ==>
                exists i :: 0 <= i < |requests| && !Ranked(config, requests[i])
                         && (forall j :: 0 <= j < i ==> Ranked(config, requests[j]))
                         && accounts == Registered(old(accounts), requests[..i], round)
    {
      hide Score, Scored, Registered, Ids;
      var cs: seq<Candidate> := [];
      RegisterNone(accounts, requests, round);
      ScoredNone(config, accounts, requests, round, clock);
      for i := 0 to |requests|
        invariant Current(accounts, round)
        invariant accounts == Registered(old(accounts), requests[..i], round)
        invariant forall j :: 0 <= j < i ==> Ranked(config, requests[j])
        invariant Scored(config, accounts, requests[..i], round, clock[..i], cs)
      {
        var q := requests[i];
        if !Ranked(config, q) {
          return None;
        }
        RegisterNext(old(accounts), requests, i, round);
        ghost var before := accounts;
        if q.id !in accounts {
          accounts := accounts[q.id := Account(0, round - 1)];
        }
        ScoredNext(config, before, accounts, requests, round, clock, cs, i);
        cs := cs + [Candidate(q, Rank(Score(config, q, accounts[q.id], round, clock[i]), q.id))];
      }
      assert requests[..|requests|] == requests && clock[..|clock|] == clock;
      scored := Some(cs);
    }

    method Forget(requestId: int)
      requires Valid()
      modifies this`accounts
      ensures Valid() && accounts == old(accounts) - {requestId}
    {
      accounts := accounts - {requestId};
    }
  }

  /** One successful round. */
  ghost predicate Round(
    config: Config, accounts: Accounts, round: nat, requests: seq<Request>, limit: int, clock: seq<real>, selected: seq<Request>,
    accounts': Accounts, round': nat)
  {
    && limit > 0 && UniqueIds(requests)
    && round' == round + 1
    && var registered := Registered(Retained(accounts, Ids(requests)), requests, round');
    && accounts' == Served(registered, selected, round')
    && exists cs :: Scored(config, registered, requests, round', clock, cs) && FirstByRank(cs, limit, selected)
  }
}
