/**
 The response demultiplexer of one worker process. Any number of callers wait on one
 response queue; whoever holds the response lock takes the next response and puts it
 into the mailbox of the call it is tagged with. Calls, the worker and the holder of
 the lock take their steps in any order, and a caller may give up at any time.
 */
module RpcChannel {
  import opened Basics

  /** A response, tagged with the call it answers. */
  datatype Response = Response(id: int, body: int)

  /** What the holder of the response lock has in hand. */
  datatype Hand =
    | Free
    | Taken(caller: int, taken: Response)
    /** The waiter was looked up: `wanted` says whether there was one. */
    | Found(caller: int, found: Response, wanted: bool)

  datatype Channel = Channel(
    next: int,
    waiters: set<int>,
    pending: int,
    commands: seq<int>,
    responses: seq<Response>,
    hand: Hand,
    /** The mailbox of a call holds one response at most. */
    mail: map<int, Response>,
    /** What each call returned. */
    results: map<int, Response>,
    /** What the worker answered, ever. */
    answers: map<int, Response>)

  datatype Step =
    | Call
    /** The worker answers its next command. */
    | Answer(body: int)
    | Take(caller: int)
    | LookUp
    | Put
    | Receive(caller: int)
    | GiveUp(caller: int)

  function Empty(): Channel {
    Channel(1, {}, 0, [], [], Free, map[], map[], map[])
  }

  function InHand(h: Hand): set<int> {
    match h
    case Free => {}
    case Taken(_, r) => {r.id}
    case Found(_, r, wanted) => if wanted then {r.id} else {}
  }

  predicate Among(responses: seq<Response>, id: int) {
    exists i :: 0 <= i < |responses| && responses[i].id == id
  }

  /** The answer to a call is somewhere between the command queue and its mailbox. */
  predicate UnderWay(c: Channel, id: int) {
    id in c.commands || Among(c.responses, id) || id in InHand(c.hand) || id in c.mail
  }

  function Drainer(h: Hand): Option<int> {
    match h
    case Free => None
    case Taken(caller, _) => Some(caller)
    case Found(caller, _, _) => Some(caller)
  }

  /** The steps a thread can take. A mailbox that is full would refuse a second response. */
  predicate Enabled(c: Channel, s: Step) {
    match s
    case Call => true
    case Answer(_) => c.commands != []
    case Take(caller) => caller in c.waiters && c.hand.Free? && c.responses != []
    case LookUp => c.hand.Taken?
    case Put => c.hand.Found?
    case Receive(caller) => caller in c.waiters && caller in c.mail && Drainer(c.hand) != Some(caller)
    case GiveUp(caller) => caller in c.waiters && Drainer(c.hand) != Some(caller)
  }

  function Hang(c: Channel, caller: int): Channel {
    c.(waiters := c.waiters - {caller}, pending := Max(0, c.pending - 1))
  }

  function Next(c: Channel, s: Step): Channel
    requires Enabled(c, s)
  {
    match s
    case Call =>
      c.(next := c.next + 1, waiters := c.waiters + {c.next}, pending := c.pending + 1, commands := c.commands + [c.next])
    case Answer(body) =>
      var r := Response(c.commands[0], body);
      c.(commands := c.commands[1..], responses := c.responses + [r], answers := c.answers[r.id := r])
    case Take(caller) => c.(hand := Taken(caller, c.responses[0]), responses := c.responses[1..])
    case LookUp => c.(hand := Found(c.hand.caller, c.hand.taken, c.hand.taken.id in c.waiters))
    case Put =>
      // The mailbox of a call that gave up since it was looked up belongs to nobody.
      if c.hand.wanted && c.hand.found.id in c.waiters then c.(hand := Free, mail := c.mail[c.hand.found.id := c.hand.found]) else c.(hand := Free)
    case Receive(caller) => Hang(c, caller).(results := c.results[caller := c.mail[caller]], mail := c.mail - {caller})
    case GiveUp(caller) => Hang(c, caller).(mail := c.mail - {caller})
  }

  /** Ids are issued once, and nothing is in two places. */
  ghost predicate Ordered(c: Channel) {
    && (forall id :: id in c.commands ==> 0 < id < c.next && id !in c.answers)
    && (forall id :: id in c.answers ==> 0 < id < c.next && c.answers[id].id == id)
    && (forall id :: id in c.waiters ==> 0 < id < c.next)
    && 0 < c.next
    && Distinct(c.commands)
    && (forall i, j :: 0 <= i < j < |c.responses| ==> c.responses[i].id != c.responses[j].id)
  }

  /** Every response on its way is the worker's answer to its own call. */
  ghost predicate Tagged(c: Channel) {
    && (forall r :: r in c.responses ==> Answers(c, r.id, r) && r.id !in c.mail && r.id !in c.results)
    && (forall id :: id in c.mail ==> Answers(c, id, c.mail[id]) && id !in c.results && id in c.waiters)
    && (forall id :: id in c.results ==> Answers(c, id, c.results[id]) && id !in c.waiters)
    && (match c.hand
        case Free => true
        case Taken(_, r) => Loose(c, r)
        case Found(_, r, wanted) => Loose(c, r) && (!wanted ==> r.id !in c.waiters))
  }

  ghost predicate Answers(c: Channel, id: int, r: Response) {
    r.id == id && id in c.answers && c.answers[id] == r
  }

  /** The response in hand is nowhere else. */
  ghost predicate Loose(c: Channel, r: Response) {
    && Answers(c, r.id, r) && r.id !in c.mail && r.id !in c.results
    && forall other :: other in c.responses ==> other.id != r.id
  }

  /** What a waiting call waits for is under way, and only waiting calls drain responses. */
  ghost predicate Awaited(c: Channel) {
    && (forall id :: id in c.waiters ==> UnderWay(c, id))
    && (Drainer(c.hand).Some? ==> Drainer(c.hand).value in c.waiters)
  }

  ghost predicate Consistent(c: Channel) {
    && Ordered(c)
    && Tagged(c)
    && c.pending == |c.waiters|
    && Awaited(c)
  }

  lemma EmptyIsConsistent()
    ensures Consistent(Empty())
  {
  }

  lemma StepKeepsConsistent(c: Channel, s: Step)
    requires Consistent(c) && Enabled(c, s)
    ensures Consistent(Next(c, s))
  {
    hide Ordered, Tagged, Awaited;
    StepKeepsOrdered(c, s);
    StepKeepsTagged(c, s);
    StepKeepsAwaited(c, s);
    StepKeepsPending(c, s);
  }

  lemma StepKeepsOrdered(c: Channel, s: Step)
    requires Consistent(c) && Enabled(c, s)
    ensures Ordered(Next(c, s))
  {
    if s.Answer? {
      AnswerKeepsOrdered(c, s.body);
    } else {
      hide Awaited, UnderWay, Tagged;
    }
  }

  lemma AnswerKeepsOrdered(c: Channel, body: int)
    requires Consistent(c) && c.commands != []
    ensures Ordered(Next(c, Answer(body)))
  {
    AnswersFresh(c);
    hide Awaited, UnderWay, Tagged;
    var id, rest := c.commands[0], c.commands[1..];
    assert id in c.commands && id !in rest;
    assert forall x :: x in rest ==> x in c.commands;
  }

  lemma StepKeepsTagged(c: Channel, s: Step)
    requires Consistent(c) && Enabled(c, s)
    ensures Tagged(Next(c, s))
  {
    match s
    case Answer(body) => AnswerKeepsTagged(c, body);
    case Take(caller) => TakeKeepsTagged(c, caller);
    case LookUp => hide Ordered, Awaited, Answers, Loose;
    case Put => PutKeepsTagged(c);
    case Receive(caller) => ReceiveKeepsTagged(c, caller);
    case _ => CallKeepsTagged(c, s);
  }

  /** Nobody has the answer to a command that is still queued. */
  lemma AnswersFresh(c: Channel)
    requires Consistent(c) && c.commands != []
    ensures var id := c.commands[0];
            && id !in c.answers && id !in c.mail && id !in c.results && id !in InHand(c.hand)
            && forall r :: r in c.responses ==> r.id != id
  {
    hide Awaited, UnderWay;
    assert c.commands[0] in c.commands;
  }

  lemma TakeIsLoose(c: Channel)
    requires Consistent(c) && c.responses != []
    ensures Loose(c.(responses := c.responses[1..]), c.responses[0])
    ensures forall r :: r in c.responses[1..] ==> r in c.responses
  {
    hide Awaited, UnderWay;
    var first, rest := c.responses[0], c.responses[1..];
    assert first in c.responses;
    forall r | r in rest ensures r.id != first.id && r in c.responses {
      var i :| 0 <= i < |rest| && rest[i] == r;
      assert c.responses[i + 1] == r;
    }
  }

  lemma AnswerKeepsTagged(c: Channel, body: int)
    requires Consistent(c) && c.commands != []
    ensures Tagged(Next(c, Answer(body)))
  {
    AnswersFresh(c);
    hide Ordered, Awaited, Consistent;
  }

  lemma TakeKeepsTagged(c: Channel, caller: int)
    requires Consistent(c) && Enabled(c, Take(caller))
    ensures Tagged(Next(c, Take(caller)))
  {
    TakeIsLoose(c);
    hide Ordered, Awaited, Loose, Answers;
  }

  lemma PutKeepsTagged(c: Channel)
    requires Consistent(c) && c.hand.Found?
    ensures Tagged(Next(c, Put))
  {
    hide Ordered, Awaited;
  }

  lemma ReceiveKeepsTagged(c: Channel, caller: int)
    requires Consistent(c) && Enabled(c, Receive(caller))
    ensures Tagged(Next(c, Receive(caller)))
  {
    hide Ordered, Awaited;
  }

  lemma CallKeepsTagged(c: Channel, s: Step)
    requires Consistent(c) && Enabled(c, s) && (s.Call? || s.GiveUp?)
    ensures Tagged(Next(c, s))
  {
    hide Awaited;
  }

  lemma StepKeepsAwaited(c: Channel, s: Step)
    requires Consistent(c) && Enabled(c, s)
    ensures Awaited(Next(c, s))
  {
    hide Ordered, Tagged, Among;
    var d := Next(c, s);
    forall id | id in d.waiters ensures UnderWay(d, id) {
      if id in c.waiters {
        assert UnderWay(c, id);
        match s
        case Answer(body) =>
          AmongLast(c.responses, Response(c.commands[0], body), id);
          assert c.commands == [c.commands[0]] + c.commands[1..];
        case Take(_) => AmongRest(c.responses, id);
        case _ =>
      }
    }
  }

  lemma AmongLast(responses: seq<Response>, r: Response, id: int)
    ensures Among(responses, id) || id == r.id ==> Among(responses + [r], id)
  {
    assert (responses + [r])[|responses|] == r;
    assert forall i :: 0 <= i < |responses| ==> (responses + [r])[i] == responses[i];
  }

  lemma AmongRest(responses: seq<Response>, id: int)
    requires responses != []
    ensures Among(responses, id) ==> id == responses[0].id || Among(responses[1..], id)
  {
    if Among(responses, id) && id != responses[0].id {
      var i :| 0 <= i < |responses| && responses[i].id == id;
      assert responses[1..][i - 1] == responses[i];
    }
  }

  lemma StepKeepsPending(c: Channel, s: Step)
    requires Consistent(c) && Enabled(c, s)
    ensures Next(c, s).pending == |Next(c, s).waiters|
  {
    CountWaiters(c, s);
  }

  /** Only a call adds a waiter, and only the end of one removes it. */
  lemma CountWaiters(c: Channel, s: Step)
    requires Consistent(c) && Enabled(c, s)
    ensures c.pending == |c.waiters|
    ensures |Next(c, s).waiters| == |c.waiters| + if s.Call? then 1 else if s.Receive? || s.GiveUp? then -1 else 0
  {
    NextIsFresh(c);
    assert c.pending == |c.waiters|;
    hide Consistent;
    if s.Call? {
      assert |c.waiters + {c.next}| == |c.waiters| + 1;
    } else if s.Receive? || s.GiveUp? {
      assert |c.waiters - {s.caller}| == |c.waiters| - 1;
    }
  }

  lemma NextIsFresh(c: Channel)
    requires Consistent(c)
    ensures c.next !in c.waiters && c.next !in c.commands && c.next !in c.answers
  {
    hide Tagged, Awaited;
  }

  /** A run from one channel to another. */
  ghost predicate Run(c: Channel, steps: seq<Step>, d: Channel)
    decreases |steps|
  {
    if steps == [] then c == d
    else Enabled(c, steps[0]) && Run(Next(c, steps[0]), steps[1..], d)
  }

  function Calls(steps: seq<Step>): nat {
    if steps == [] then 0 else (if steps[0].Call? then 1 else 0) + Calls(steps[1..])
  }

  /** What the steps other than new calls use up. */
  function Work(c: Channel): nat {
    4 * |c.commands| + 3 * |c.responses| + |c.waiters| +
    match c.hand
    case Free => 0
    case Taken(_, _) => 2
    case Found(_, _, _) => 1
  }

  lemma StepWorks(c: Channel, s: Step)
    requires Consistent(c) && Enabled(c, s)
    ensures Work(Next(c, s)) + 1 <= Work(c) + if s.Call? then 6 else 0
  {
    CountWaiters(c, s);
    hide Consistent;
  }

  /**
   Whatever the interleaving: the channel stays consistent, and the threads take at
   most six steps for each call, however often the response lock changes hands.
   */
  lemma {:induction false} RunKeepsConsistent(c: Channel, steps: seq<Step>, d: Channel)
    requires Consistent(c) && Run(c, steps, d)
    ensures Consistent(d) && Work(d) + |steps| <= Work(c) + 6 * Calls(steps)
    decreases |steps|
  {
    if steps == [] {
    } else {
      StepKeepsConsistent(c, steps[0]);
      StepWorks(c, steps[0]);
      RunKeepsConsistent(Next(c, steps[0]), steps[1..], d);
    }
  }

  /** A tagged response reaches the call it answers and no other, and it is what the worker answered. */
  lemma ReachesOnlyItsCaller(steps: seq<Step>, c: Channel, id: int)
    requires Run(Empty(), steps, c) && id in c.results
    ensures c.results[id].id == id && id in c.answers && c.results[id] == c.answers[id] && id !in c.waiters
  {
    hide Run, Awaited;
    EmptyIsConsistent();
    RunKeepsConsistent(Empty(), steps, c);
  }

  /** A call that returns returns the worker's answer to it, and leaves nothing behind. */
  lemma ReturnsItsAnswer(steps: seq<Step>, c: Channel, w: int)
    requires Run(Empty(), steps, c) && Enabled(c, Receive(w))
    ensures var d := Next(c, Receive(w));
            && w in c.answers && w in d.results && d.results[w] == c.answers[w]
            && w !in d.waiters && w !in d.mail && d.pending == c.pending - 1
  {
    hide Run, Awaited;
    EmptyIsConsistent();
    RunKeepsConsistent(Empty(), steps, c);
    StepKeepsPending(c, Receive(w));
    CountWaiters(c, Receive(w));
  }

  /** Nothing is kept for a call that is over, and one that gives up takes its mailbox along. */
  lemma MailIsForWaiters(steps: seq<Step>, c: Channel)
    requires Run(Empty(), steps, c)
    ensures c.mail.Keys <= c.waiters && c.results.Keys !! c.waiters && c.pending == |c.waiters|
  {
    hide Run, Awaited;
    EmptyIsConsistent();
    RunKeepsConsistent(Empty(), steps, c);
    forall id | id in c.mail.Keys ensures id in c.waiters {}
    forall id | id in c.results.Keys ensures id !in c.waiters {}
  }

  /** A response put into a mailbox finds it empty, so that the put never fails. */
  lemma MailboxHasRoom(steps: seq<Step>, c: Channel)
    requires Run(Empty(), steps, c) && Enabled(c, Put)
    ensures c.hand.found.id !in c.mail
    ensures c.pending == |c.waiters|
  {
    hide Run, Awaited;
    EmptyIsConsistent();
    RunKeepsConsistent(Empty(), steps, c);
  }

  /**
   While a call waits, some thread can go on without anybody giving up: no response is
   lost or stranded with a caller that left. With the bound on the steps of a run,
   every call that does not give up returns.
   */
  lemma NeverStuck(steps: seq<Step>, c: Channel, w: int) returns (s: Step)
    requires Run(Empty(), steps, c) && w in c.waiters
    ensures Enabled(c, s) && !s.Call? && !s.GiveUp?
    ensures w in c.mail && Drainer(c.hand) != Some(w) ==> Enabled(c, Receive(w))
  {
    hide Ordered, Tagged, Run;
    EmptyIsConsistent();
    RunKeepsConsistent(Empty(), steps, c);
    assert UnderWay(c, w);
    s := if c.commands != [] then Answer(0)
         else if c.hand.Taken? then LookUp
         else if c.hand.Found? then Put
         else if c.responses != [] then Take(w)
         else Receive(w);
  }

  /** Once nothing is on its way, every waiting call has its response in its mailbox. */
  lemma QuietMeansServed(steps: seq<Step>, c: Channel)
    requires Run(Empty(), steps, c) && c.commands == [] && c.responses == [] && c.hand.Free?
    ensures c.waiters <= c.mail.Keys
  {
    hide Run, Ordered, Tagged;
    EmptyIsConsistent();
    RunKeepsConsistent(Empty(), steps, c);
    forall w | w in c.waiters ensures w in c.mail {
      assert UnderWay(c, w);
    }
  }
}
