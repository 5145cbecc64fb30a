/**
 The backend as the serving loop sees it: it may accept, defer or refuse a request and
 fail any call, but what it computes for a clean request depends on that request alone.

 A request's state is modelled by the tokens folded into it and the length of its KV.
 `RuntimeBackend` has methods with these contracts that run on the modelled components.
 */
module GenerationBackend {
  import opened Basics
  import opened GenerationStream

  datatype Decision = Accept | Defer | Reject

  /** What was answered to an admission question. */
  datatype Answer = Answer(id: int, decision: Decision)

  datatype Kept = Kept(folded: seq<Token>, kv: int)

  type States = map<int, Kept>

  /** The state from which a request goes on: everything but its last token, on as many KV positions. */
  function Exactly(spec: Spec, g: seq<Token>): Kept
    requires g != []
  {
    Kept(Replay(spec, g), |spec.prompt| + |g| - 1)
  }

  /** One request of a decode batch. */
  datatype Row = Row(spec: Spec, generated: seq<Token>)

  /** A decode call yields a token per row, or some tokens and some errors, or nothing. */
  datatype Reply = Tokens(tokens: seq<Token>) | Partial(samples: map<int, Token>, errors: set<int>) | Broken

  predicate UniqueRows(rows: seq<Row>) {
    forall i, j :: 0 <= i < j < |rows| ==> rows[i].spec.id != rows[j].spec.id
  }

  function Ids(rows: seq<Row>): set<int> {
    set i | 0 <= i < |rows| :: rows[i].spec.id
  }

  /** A partial reply speaks of exactly the rows it was asked for, once each. */
  predicate Covers(reply: Reply, rows: seq<Row>)
    requires reply.Partial?
  {
    reply.samples.Keys + reply.errors == Ids(rows) && reply.samples.Keys !! reply.errors
  }

  /** One row's step, given its state before and after. */
  predicate Stepped(sampler: Sampler, row: Row, before: Kept, after: Kept, token: Token) {
    && row.generated != []
    && after == Kept(before.folded + [row.generated[|row.generated| - 1]], before.kv + 1)
    && token == sampler(row.spec.id, after.folded, row.spec.prompt + row.generated, |row.generated|)
  }

  /** A row that got a token: it still has a state, and a clean row's is one step on. */
  predicate Advanced(sampler: Sampler, row: Row, before: States, after: States, token: Token) {
    var id := row.spec.id;
    id in after && (row.spec.clean && id in before ==> Stepped(sampler, row, before[id], after[id], token))
  }

  /** A row that got none: it still has a state, and a clean row's is the old one. */
  predicate Stayed(row: Row, before: States, after: States) {
    var id := row.spec.id;
    id in after && (row.spec.clean && id in before ==> after[id] == before[id])
  }

  /** What a decode call may do. */
  ghost predicate DecodeMeets(sampler: Sampler, rows: seq<Row>, before: States, after: States, reply: Reply) {
    && (forall id :: id in before && id !in Ids(rows) ==> id in after && after[id] == before[id])
    && (reply.Tokens? && |reply.tokens| == |rows| ==>
          forall i :: 0 <= i < |rows| ==> Advanced(sampler, rows[i], before, after, reply.tokens[i]))
    && (reply.Partial? && Covers(reply, rows) ==>
          forall i :: 0 <= i < |rows| ==>
            var id := rows[i].spec.id;
            if id in reply.samples then Advanced(sampler, rows[i], before, after, reply.samples[id])
            else Stayed(rows[i], before, after))
  }

  class Backend {
    const sampler: Sampler
    /** The requests no decode step of this run leaves a trace in. */
    const trusts: int -> bool
    /** The answer to an admission question, by how many were asked before. */
    const answers: (int, nat) -> Decision
    /** A backend on which prefill, preemption and release do not fail. */
    const reliable: bool
    var states: States
    /** The admission questions so far, and the recoveries asked for. */
    var answered: seq<Answer>
    var replayed: seq<int>
    /** Requests that hold pages and a state slot. */
    ghost var reserved: set<int>

    constructor (sampler: Sampler, trusts: int -> bool, answers: (int, nat) -> Decision, reliable: bool)
      ensures this.sampler == sampler && this.trusts == trusts && this.answers == answers && this.reliable == reliable
      ensures states == map[] && reserved == {} && answered == [] && replayed == []
    {
      this.sampler := sampler;
      this.trusts := trusts;
      this.answers := answers;
      this.reliable := reliable;
      states := map[];
      answered, replayed := [], [];
      reserved := {};
    }

    method Admit(id: int) returns (d: Decision)
      modifies this`reserved, this`answered
      ensures d == answers(id, |old(answered)|) && answered == old(answered) + [Answer(id, d)]
      ensures reserved == old(reserved) + if d.Accept? then {id} else {}
    {
      d := answers(id, |answered|);
      answered := answered + [Answer(id, d)];
      if d.Accept? {
        reserved := reserved + {id};
      }
    }

    /** A prefill that fails gives everything back at once. */
    method Prefill(spec: Spec) returns (r: Result<Token>)
      modifies this`states, this`reserved
      ensures r.Ok? ==>
                && r.value == sampler(spec.id, spec.prompt, spec.prompt, 0)
                && states == old(states)[spec.id := Kept(spec.prompt, |spec.prompt|)] && reserved == old(reserved)
      ensures r.Err? ==> states == old(states) - {spec.id} && reserved == old(reserved) - {spec.id}
      ensures reliable ==> r.Ok?
    {
      var fails: bool := *;
      if fails && !reliable {
        states := states - {spec.id};
        reserved := reserved - {spec.id};
        return Err(RuntimeError);
      }
      states := states[spec.id := Kept(spec.prompt, |spec.prompt|)];
      r := Ok(sampler(spec.id, spec.prompt, spec.prompt, 0));
    }

    /** Recomputes a state from its tokens; nothing is sampled. */
    method Recover(spec: Spec, g: seq<Token>) returns (r: Result<Decision>)
      requires g != []
      modifies this`states, this`reserved, this`replayed
      ensures r == Ok(Accept) ==> states == old(states)[spec.id := Exactly(spec, g)] && reserved == old(reserved) + {spec.id}
      ensures r != Ok(Accept) ==> states == old(states) - {spec.id} && reserved == old(reserved) - {spec.id}
      ensures replayed == old(replayed) + [spec.id]
    {
      replayed := replayed + [spec.id];
      var fails: bool := *;
      var d: Decision := *;
      if fails || !d.Accept? {
        states := states - {spec.id};
        reserved := reserved - {spec.id};
        return if fails then Err(RuntimeError) else Ok(d);
      }
      states := states[spec.id := Exactly(spec, g)];
      reserved := reserved + {spec.id};
      r := Ok(Accept);
    }

    method Release(id: int) returns (ok: bool)
      modifies this`states, this`reserved
      ensures states == old(states) - {id} && reserved == old(reserved) - {id}
      ensures reliable ==> ok
    {
      states := states - {id};
      reserved := reserved - {id};
      var fails: bool := *;
      ok := reliable || !fails;
    }

    /** Takes a request's state and pages away; when it fails they are left for a later release. */
    method Preempt(id: int) returns (ok: bool)
      modifies this`states, this`reserved
      ensures ok ==> states == old(states) - {id} && reserved == old(reserved) - {id}
      ensures !ok ==> states == old(states) && reserved == old(reserved)
      ensures reliable ==> ok
    {
      var fails: bool := *;
      ok := reliable || !fails;
      if ok {
        states := states - {id};
        reserved := reserved - {id};
      }
    }

    /** One decode call. Clean rows that fail are back where they were, unless the whole call breaks. */
    method Decode(rows: seq<Row>) returns (reply: Reply)
      requires UniqueRows(rows) && forall i :: 0 <= i < |rows| ==> rows[i].generated != [] && rows[i].spec.id in states
      modifies this`states
      ensures DecodeMeets(sampler, rows, old(states), states, reply)
    {
      var breaks: bool := *;
      if breaks {
        var left := states.Keys - Ids(rows);
        states := map id | id in states && id in left :: states[id];
        return Broken;
      }
      var samples: map<int, Token> := map[];
      var errors: set<int> := {};
      for i := 0 to |rows|
        invariant samples.Keys + errors == Ids(rows[..i]) && samples.Keys !! errors
        invariant states.Keys == old(states).Keys
        invariant forall id :: id in states && id !in Ids(rows[..i]) ==> states[id] == old(states)[id]
        invariant forall j :: 0 <= j < i ==>
                    var id := rows[j].spec.id;
                    && (id in samples || id in errors)
                    && (id in samples ==> Advanced(sampler, rows[j], old(states), states, samples[id]))
                    && (id !in samples ==> Stayed(rows[j], old(states), states))
      {
        IdsNext(rows, i);
        var row := rows[i];
        var id := row.spec.id;
        var fails: bool := *;
        var trace: Kept := *;
        if fails {
          errors := errors + {id};
          states := states[id := if row.spec.clean then states[id] else trace];
        } else {
          var after := Kept(states[id].folded + [row.generated[|row.generated| - 1]], states[id].kv + 1);
          states := states[id := if row.spec.clean then after else trace];
          samples := samples[id := sampler(id, states[id].folded, row.spec.prompt + row.generated, |row.generated|)];
        }
      }
      assert rows[..|rows|] == rows;
      if errors != {} {
        return Partial(samples, errors);
      }
      reply := Tokens(seq(|rows|, i requires 0 <= i < |rows| && rows[i].spec.id in samples => samples[rows[i].spec.id]));
    }
  }

  lemma IdsNext(rows: seq<Row>, i: nat)
    requires i < |rows| && UniqueRows(rows)
    ensures Ids(rows[..i + 1]) == Ids(rows[..i]) + {rows[i].spec.id}
    ensures rows[i].spec.id !in Ids(rows[..i])
    ensures forall j :: 0 <= j < i ==> rows[j].spec.id in Ids(rows[..i]) && rows[j].spec.id != rows[i].spec.id
  {
    var shorter, longer := rows[..i], rows[..i + 1];
    assert forall j :: 0 <= j < i ==> shorter[j] == longer[j];
    assert longer[i] == rows[i];
    forall j | 0 <= j < i ensures rows[j].spec.id in Ids(shorter) {
      assert shorter[j] == rows[j];
    }
  }
}
