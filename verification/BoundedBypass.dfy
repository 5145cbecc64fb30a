/**
 No request that stays a candidate waits forever: whoever comes and goes around it, it
 is selected within a number of rounds that its own past service, the configured biases,
 the batch limit and the size of the pool determine.
 */
module BoundedBypass {
  import opened Basics
  import opened FairScheduler

  /** One round of a run: whose accounts were forgotten before it, what was asked and who was selected. */
  datatype Turn = Turn(forgotten: set<int>, requests: seq<Request>, limit: int, clock: seq<real>, selected: seq<Request>)

  /** Successive rounds, with the accounts before and after each. */
  ghost predicate Run(config: Config, accounts: seq<Accounts>, round: nat, turns: seq<Turn>) {
    && config.Valid()
    && |accounts| == |turns| + 1
    && Current(accounts[0], round)
    && forall i :: 0 <= i < |turns| ==>
         Round(config, accounts[i] - turns[i].forgotten, round + i, turns[i].requests, turns[i].limit, turns[i].clock, turns[i].selected,
               accounts[i + 1], round + i + 1)
  }

  /** When the round reads the clock, no deadline has passed. */
  predicate Unexpired(turn: Turn) {
    forall i :: 0 <= i < |turn.requests| && i < |turn.clock| && turn.requests[i].deadline.Some? ==>
      turn.clock[i] <= turn.requests[i].deadline.value
  }

  /** `r`, whose account was not forgotten, is a candidate and is passed over. */
  predicate Bypassed(r: Request, turn: Turn) {
    r.id !in turn.forgotten && r in turn.requests && r.id !in Ids(turn.selected)
  }

  /** How much another request can be ahead for reasons other than waiting. */
  function Lead(config: Config, service: nat): real {
    service as real + config.priorityBias * config.maxPriority as real + config.deadlineBias
  }

  /** Rounds of waiting that make up for any lead. */
  function Patience(config: Config, service: nat): (c: nat)
    requires config.Valid()
    ensures Lead(config, service) < config.agingWeight * (c + 1) as real
  {
    var lead := Lead(config, service);
    NonNegativeProduct(config.priorityBias, config.maxPriority as real);
    FloorBelow(lead, config.agingWeight);
    (lead / config.agingWeight).Floor
  }

  lemma NonNegativeProduct(x: real, y: real)
    requires x >= 0.0 && y >= 0.0
    ensures x * y >= 0.0
  {
  }

  lemma ProductMonotone(x: real, y: real, k: real)
    requires x <= y && k >= 0.0
    ensures k * x <= k * y
  {
    NonNegativeProduct(y - x, k);
    assert k * y - k * x == k * (y - x);
  }

  lemma FloorBelow(x: real, y: real)
    requires y > 0.0 && x >= 0.0
    ensures (x / y).Floor >= 0
    ensures x < y * ((x / y).Floor + 1) as real
  {
    var q := x / y;
    Divides(x, y);
    if q < 0.0 {
      ProductStrict(q, 0.0, y);
    }
    ProductStrict(q, (q.Floor + 1) as real, y);
  }

  lemma Divides(x: real, y: real)
    requires y > 0.0
    ensures y * (x / y) == x
  {
  }

  lemma ProductStrict(x: real, y: real, k: real)
    requires x < y && k > 0.0
    ensures k * x < k * y
  {
    var d := y - x;
    assert k * y - k * x == k * d;
    Positive(k, d);
  }

  lemma Positive(x: real, y: real)
    requires x > 0.0 && y > 0.0
    ensures x * y > 0.0
  {
  }

  // ----- one round

  lemma ServiceShare(service: nat, priority: int)
    requires priority >= 0
    ensures 0.0 <= service as real / (priority + 1) as real <= service as real
  {
    var s, w := service as real, (priority + 1) as real;
    var share := s / w;
    assert share * w == s;
    if share < 0.0 {
      ProductMonotone(share, 0.0, w);
      assert share * w < 0.0;
    }
    ProductMonotone(1.0, w, share);
  }

  /** A score is at most the service less the waiting, and at least minus the lead and the waiting. */
  lemma ScoreBounds(config: Config, q: Request, a: Account, round: nat, now: real)
    requires config.Valid() && Ranked(config, q) && a.lastServed <= round
    ensures Score(config, q, a, round, now) <= a.service as real - config.agingWeight * (round - a.lastServed) as real
    ensures (q.deadline.Some? ==> now <= q.deadline.value) ==>
              Score(config, q, a, round, now) >=
                -(config.priorityBias * config.maxPriority as real) - config.agingWeight * (round - a.lastServed) as real - config.deadlineBias
  {
    var u := Urgency(config, q.deadline, now);
    var share, boost := a.service as real / (q.priority + 1) as real, config.priorityBias * q.priority as real;
    var wait, urge := config.agingWeight * (round - a.lastServed) as real, config.deadlineBias * u;
    assert Score(config, q, a, round, now) == share - boost - wait - urge;
    ServiceShare(a.service, q.priority);
    NonNegativeProduct(config.priorityBias, q.priority as real);
    ProductMonotone(q.priority as real, config.maxPriority as real, config.priorityBias);
    NonNegativeProduct(config.deadlineBias, u);
    if q.deadline.Some? ==> now <= q.deadline.value {
      ProductMonotone(u, 1.0, config.deadlineBias);
      assert urge <= config.deadlineBias && boost <= config.priorityBias * config.maxPriority as real;
    }
  }

  /** Whoever goes before `r` was served, or arrived, less than `Patience` rounds after `r` was last served. */
  lemma AheadIsRecent(config: Config, round: nat, r: Request, ar: Account, now: real, q: Request, aq: Account, now': real)
    requires config.Valid() && Ranked(config, r) && Ranked(config, q)
    requires ar.lastServed <= round && aq.lastServed <= round
    requires q.deadline.Some? ==> now' <= q.deadline.value
    requires Score(config, q, aq, round, now') <= Score(config, r, ar, round, now)
    ensures aq.lastServed <= ar.lastServed + Patience(config, ar.service)
  {
    hide Score;
    ScoreBounds(config, r, ar, round, now);
    ScoreBounds(config, q, aq, round, now');
    var c := Patience(config, ar.service);
    var dr, dq := (round - ar.lastServed) as real, (round - aq.lastServed) as real;
    assert config.agingWeight * dr - config.agingWeight * dq == config.agingWeight * (dr - dq);
    assert config.agingWeight * (dr - dq) <= Lead(config, ar.service);
    if aq.lastServed > ar.lastServed + c {
      ProductMonotone((c + 1) as real, dr - dq, config.agingWeight);
    }
  }

  /** In a round that passes `r` over, a full batch goes before it. */
  lemma FullBatchAhead(
    config: Config, accounts: Accounts, requests: seq<Request>, round: nat, clock: seq<real>, cs: seq<Candidate>, limit: nat,
    selected: seq<Request>, k: nat)
    requires Scored(config, accounts, requests, round, clock, cs) && UniqueIds(requests)
    requires FirstByRank(cs, limit, selected)
    requires k < |requests| && requests[k].id !in Ids(selected)
    ensures |selected| == limit
    ensures forall i :: 0 <= i < |selected| ==> AheadOf(requests, cs, k, selected[i])
    ensures UniqueIds(selected)
  {
    var sorted: seq<Candidate> :| PicksFirst(cs, limit, selected, sorted);
    var m := IndexIn(cs, sorted, k);
    forall i | 0 <= i < |selected| ensures selected[i].id != requests[k].id {
      assert selected[i] in selected;
    }
    assert sorted[m].request == requests[k];
    forall i | 0 <= i < |selected| ensures AheadOf(requests, cs, k, selected[i]) {
      var j := IndexIn(sorted, cs, i);
      assert IsAhead(requests, cs, j, k, selected[i]);
    }
    SortedUnique(requests, cs, sorted);
    forall i, j | 0 <= i < j < |selected| ensures selected[i].id != selected[j].id {
      assert sorted[i].request.id != sorted[j].request.id;
    }
  }

  /** `q` is a candidate that does not come after the `k`-th. */
  ghost predicate AheadOf(requests: seq<Request>, cs: seq<Candidate>, k: nat, q: Request) {
    exists j :: IsAhead(requests, cs, j, k, q)
  }

  ghost predicate IsAhead(requests: seq<Request>, cs: seq<Candidate>, j: int, k: nat, q: Request) {
    0 <= j < |requests| == |cs| && k < |cs| && requests[j] == q && !Before(cs[k].rank, cs[j].rank)
  }

  lemma IndexIn(xs: seq<Candidate>, ys: seq<Candidate>, i: nat) returns (j: nat)
    requires multiset(xs) == multiset(ys) && i < |xs|
    ensures j < |ys| && ys[j] == xs[i]
  {
    assert xs[i] in multiset(xs);
    assert xs[i] in ys;
    j :| 0 <= j < |ys| && ys[j] == xs[i];
  }

  lemma SortedUnique(requests: seq<Request>, cs: seq<Candidate>, sorted: seq<Candidate>)
    requires |requests| == |cs| && UniqueIds(requests) && multiset(sorted) == multiset(cs)
    requires forall i :: 0 <= i < |cs| ==> cs[i].request == requests[i]
    ensures forall i, j :: 0 <= i < j < |sorted| ==> sorted[i].request.id != sorted[j].request.id
  {
    forall i, j | 0 <= i < j < |sorted| ensures sorted[i].request.id != sorted[j].request.id {
      if sorted[i].request.id == sorted[j].request.id {
        var a := IndexIn(sorted, cs, i);
        var b := IndexIn(sorted, cs, j);
        assert a == b;
        Twice(sorted, i, j);
        OnceInOriginal(requests, cs, a);
      }
    }
  }

  lemma OnceInOriginal(requests: seq<Request>, cs: seq<Candidate>, a: nat)
    requires |requests| == |cs| && UniqueIds(requests) && a < |cs|
    requires forall i :: 0 <= i < |cs| ==> cs[i].request == requests[i]
    ensures multiset(cs)[cs[a]] == 1
  {
    assert cs == cs[..a] + [cs[a]] + cs[a + 1..];
    assert cs[a] !in cs[..a] && cs[a] !in cs[a + 1..];
  }

  // ----- the requests that can still go before `r`

  ghost function Rivals(accounts: Accounts, r: int, bound: nat): set<int> {
    set id | id in accounts && id != r && accounts[id].lastServed <= bound
  }

  lemma {:induction false} UniqueCount(requests: seq<Request>)
    requires UniqueIds(requests)
    ensures |Ids(requests)| == |requests|
  {
    if requests == [] {
      assert Ids(requests) == {};
    } else {
      var n := |requests| - 1;
      assert requests == requests[..n] + [requests[n]];
      UniqueCount(requests[..n]);
      assert Ids(requests) == Ids(requests[..n]) + {requests[n].id};
    }
  }

  /** A round keeps the account of a request it passes over, and accounts for nobody but its candidates. */
  lemma RoundKeeps(config: Config, accounts: Accounts, round: nat, turn: Turn, accounts': Accounts, r: Request)
    requires Current(accounts, round) && Bypassed(r, turn)
    requires Round(config, accounts, round, turn.requests, turn.limit, turn.clock, turn.selected, accounts', round + 1)
    ensures r.id in accounts' && accounts'[r.id] == AccountOf(accounts, r.id, round)
    ensures Current(accounts', round + 1)
    ensures accounts'.Keys == Ids(turn.requests) && |accounts'.Keys| == |turn.requests|
  {
    hide Scored, FirstByRank, UniqueIds;
    UniqueCount(turn.requests);
    assert r.id in Ids(turn.requests);
    assert Retained(accounts, Ids(turn.requests)).Keys <= Ids(turn.requests);
  }

  /** Once everybody new comes too late, each round uses up a batch of the rivals that are left. */
  lemma RoundShrinks(config: Config, accounts: Accounts, round: nat, turn: Turn, accounts': Accounts, r: Request, limit: nat)
    requires config.Valid() && Current(accounts, round) && Bypassed(r, turn) && Unexpired(turn)
    requires Round(config, accounts, round, turn.requests, turn.limit, turn.clock, turn.selected, accounts', round + 1)
    requires limit <= turn.limit
    requires var ar := AccountOf(accounts, r.id, round); round > ar.lastServed + Patience(config, ar.service)
    ensures var ar := AccountOf(accounts, r.id, round);
            var bound := ar.lastServed + Patience(config, ar.service);
            |Rivals(accounts', r.id, bound)| + limit <= |Rivals(accounts, r.id, bound)|
  {
    hide Round, Rivals, Patience, UniqueIds, Unexpired, Bypassed;
    var ar := AccountOf(accounts, r.id, round);
    var bound := ar.lastServed + Patience(config, ar.service);
    SelectedAreRivals(config, accounts, round, turn, accounts', r);
    UniqueCount(turn.selected);
    RivalsServed(accounts, turn, accounts', r.id, bound, round);
    Smaller(Ids(turn.selected), Rivals(accounts, r.id, bound));
    Smaller(Rivals(accounts', r.id, bound), Rivals(accounts, r.id, bound) - Ids(turn.selected));
  }

  /** A round that passes `r` over serves a full batch of its rivals. */
  lemma SelectedAreRivals(config: Config, accounts: Accounts, round: nat, turn: Turn, accounts': Accounts, r: Request)
    requires config.Valid() && Current(accounts, round) && Bypassed(r, turn) && Unexpired(turn)
    requires Round(config, accounts, round, turn.requests, turn.limit, turn.clock, turn.selected, accounts', round + 1)
    requires var ar := AccountOf(accounts, r.id, round); round > ar.lastServed + Patience(config, ar.service)
    ensures var ar := AccountOf(accounts, r.id, round);
            var bound := ar.lastServed + Patience(config, ar.service);
            forall i :: 0 <= i < |turn.selected| ==> turn.selected[i].id in Rivals(accounts, r.id, bound)
    ensures UniqueIds(turn.selected) && |turn.selected| == turn.limit
    ensures accounts' == Served(Registered(Retained(accounts, Ids(turn.requests)), turn.requests, round + 1), turn.selected, round + 1)
  {
    hide Score, Scored, PicksFirst, FirstByRank, Patience, UniqueIds, Ranked, Unexpired;
    var ar := AccountOf(accounts, r.id, round);
    var registered := Registered(Retained(accounts, Ids(turn.requests)), turn.requests, round + 1);
    var cs :| Scored(config, registered, turn.requests, round + 1, turn.clock, cs) && FirstByRank(cs, turn.limit, turn.selected);
    var k :| 0 <= k < |turn.requests| && turn.requests[k] == r;
    FullBatchAhead(config, registered, turn.requests, round + 1, turn.clock, cs, turn.limit, turn.selected, k);
    assert r.id in Ids(turn.requests) && registered[r.id] == ar;
    forall i | 0 <= i < |turn.selected| ensures turn.selected[i].id in Rivals(accounts, r.id, ar.lastServed + Patience(config, ar.service)) {
      var q := turn.selected[i];
      assert q in turn.selected && q.id in Ids(turn.selected);
      assert AheadOf(turn.requests, cs, k, q);
      AheadAreRecent(config, registered, round + 1, turn, cs, k, q);
    }
  }

  lemma AheadAreRecent(config: Config, registered: Accounts, round: nat, turn: Turn, cs: seq<Candidate>, k: nat, q: Request)
    requires Scored(config, registered, turn.requests, round, turn.clock, cs) && Unexpired(turn)
    requires k < |turn.requests| && turn.requests[k].id in registered && q.id in registered
    requires AheadOf(turn.requests, cs, k, q)
    ensures var ar := registered[turn.requests[k].id];
            registered[q.id].lastServed <= ar.lastServed + Patience(config, ar.service)
  {
    hide Score, Patience;
    var j :| IsAhead(turn.requests, cs, j, k, q);
    var r := turn.requests[k];
    AheadIsRecent(config, round, r, registered[r.id], turn.clock[k], q, registered[q.id], turn.clock[j]);
  }

  /** The selected stop being rivals, and nobody new becomes one. */
  lemma RivalsServed(accounts: Accounts, turn: Turn, accounts': Accounts, r: int, bound: nat, round: nat)
    requires round > bound
    requires forall i :: 0 <= i < |turn.selected| ==> turn.selected[i].id in Rivals(accounts, r, bound)
    requires accounts' == Served(Registered(Retained(accounts, Ids(turn.requests)), turn.requests, round + 1), turn.selected, round + 1)
    ensures Ids(turn.selected) <= Rivals(accounts, r, bound)
    ensures Rivals(accounts', r, bound) <= Rivals(accounts, r, bound) - Ids(turn.selected)
  {
    forall id | id in accounts' && id in Ids(turn.selected) ensures id !in Rivals(accounts', r, bound) {
      assert accounts'[id].lastServed == round + 1;
    }
  }

  // ----- whole runs

  /** What a run keeps about a request it always passes over. */
  lemma {:induction false} RunKeeps(config: Config, accounts: seq<Accounts>, round: nat, turns: seq<Turn>, r: Request, i: nat)
    requires Run(config, accounts, round, turns) && i <= |turns|
    requires forall k :: 0 <= k < |turns| ==> Bypassed(r, turns[k])
    ensures Current(accounts[i], round + i)
    ensures AccountOf(accounts[i], r.id, round + i) ==
              if i == 0 || r.id in accounts[0] then AccountOf(accounts[0], r.id, round) else Account(0, round)
    ensures i > 0 ==> r.id in accounts[i] && |accounts[i].Keys| == |turns[i - 1].requests|
    decreases i
  {
    hide Round;
    if i > 0 {
      RunKeeps(config, accounts, round, turns, r, i - 1);
      RoundKeeps(config, accounts[i - 1] - turns[i - 1].forgotten, round + i - 1, turns[i - 1], accounts[i], r);
    }
  }

  lemma OthersCount(accounts: Accounts, r: int, bound: nat)
    requires r in accounts
    ensures |Rivals(accounts, r, bound)| <= |accounts.Keys| - 1
  {
    Smaller({r}, accounts.Keys);
    Smaller(Rivals(accounts, r, bound), accounts.Keys - {r});
  }

  /** Forgetting others can only take rivals away. */
  lemma ForgetsRivals(accounts: Accounts, forgotten: set<int>, r: int, bound: nat)
    ensures |Rivals(accounts - forgotten, r, bound)| <= |Rivals(accounts, r, bound)|
  {
    Smaller(Rivals(accounts - forgotten, r, bound), Rivals(accounts, r, bound));
  }

  lemma NotForgotten(accounts: Accounts, turn: Turn, r: Request, round: nat)
    requires Bypassed(r, turn) && Current(accounts, round)
    ensures AccountOf(accounts - turn.forgotten, r.id, round) == AccountOf(accounts, r.id, round)
    ensures Current(accounts - turn.forgotten, round)
  {
  }

  lemma {:induction false} RivalsRunOut(
    config: Config, accounts: seq<Accounts>, round: nat, turns: seq<Turn>, r: Request, pool: nat, limit: nat, i: nat)
    requires Run(config, accounts, round, turns) && pool > 0
    requires forall k :: 0 <= k < |turns| ==> Bypassed(r, turns[k]) && Unexpired(turns[k]) && |turns[k].requests| <= pool && limit <= turns[k].limit
    requires var ar := AccountOf(accounts[0], r.id, round);
             Patience(config, ar.service) + 1 <= i <= |turns|
    ensures var ar := AccountOf(accounts[0], r.id, round);
            var c := Patience(config, ar.service);
            |Rivals(accounts[i], r.id, ar.lastServed + c)| + Times(i - c - 1, limit) <= pool - 1
    decreases i
  {
    hide Patience, Round, Rivals, Bypassed, Unexpired;
    var ar := AccountOf(accounts[0], r.id, round);
    var c := Patience(config, ar.service);
    RunKeeps(config, accounts, round, turns, r, i);
    if i == c + 1 {
      OthersCount(accounts[i], r.id, ar.lastServed + c);
    } else {
      RivalsRunOut(config, accounts, round, turns, r, pool, limit, i - 1);
      RunKeeps(config, accounts, round, turns, r, i - 1);
      ForgetsRivals(accounts[i - 1], turns[i - 1].forgotten, r.id, ar.lastServed + c);
      NotForgotten(accounts[i - 1], turns[i - 1], r, round + i - 1);
      RoundShrinks(config, accounts[i - 1] - turns[i - 1].forgotten, round + i - 1, turns[i - 1], accounts[i], r, limit);
    }
  }

  /**
   Bounded bypass: a request that is a candidate in every round and never selected has
   been passed over at most this often, whatever else arrives, leaves, is forgotten or is
   served.
   */
  lemma BoundedBypass(config: Config, accounts: seq<Accounts>, round: nat, turns: seq<Turn>, r: Request, pool: nat, limit: nat)
    requires Run(config, accounts, round, turns) && limit > 0 && pool > 0
    requires forall k :: 0 <= k < |turns| ==> Bypassed(r, turns[k]) && Unexpired(turns[k]) && |turns[k].requests| <= pool && limit <= turns[k].limit
    ensures |turns| <= Patience(config, AccountOf(accounts[0], r.id, round).service) + 1 + (pool - 1) / limit
  {
    hide Patience;
    var c := Patience(config, AccountOf(accounts[0], r.id, round).service);
    if |turns| > c {
      RivalsRunOut(config, accounts, round, turns, r, pool, limit, |turns|);
      QuotientBound(|turns| - c - 1, limit, pool - 1);
    }
  }

  lemma QuotientBound(x: nat, y: nat, z: nat)
    requires y > 0 && Times(x, y) <= z
    ensures x <= z / y
  {
    var q := z / y;
    assert z < (q + 1) * y;
    if x > q {
      MulMonotone(q + 1, x, y);
    }
  }
}
