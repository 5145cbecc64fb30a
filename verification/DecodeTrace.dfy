/**
 What the attempts of one decode step leave behind, request by request.

 A request's recurrent state is modelled by the tokens folded into it. The runtime may
 fail any attempt: while its input is built, before the stepped states are published,
 or after that.
 */
module DecodeTrace {
  import opened Basics
  import opened BlockManager
  import opened GenerationStream
  import opened GenerationBackend

  /**
   Where a stepped state goes: into a shared pool, into the tensors the request already
   owns, or into fresh tensors. A checkpoint copies none of these tensors.
   */
  datatype Placement = Pooled | InPlace | Replaced

  datatype RuntimeState = RuntimeState(length: nat, folded: seq<Token>, placement: Placement)

  /** How a call ends: a failure while its input is built comes after the pages were grown. */
  datatype Fault = NoFault | Unbuilt | BeforeCommit | AfterCommit

  type Faults = (nat, seq<int>) -> Fault

  /** An attempt on a group: there were no pages for it, or the runtime had its say. */
  datatype Attempt = NoRoom(ids: seq<int>) | Reached(ids: seq<int>, fault: Fault)

  predicate Succeeded(a: Attempt) {
    a.Reached? && a.fault.NoFault?
  }

  function ErrorOf(a: Attempt): Error {
    if a.NoRoom? then MemoryError else RuntimeError
  }

  /** What the runtime publishes for one request. */
  function Committed(s: RuntimeState, token: Token): RuntimeState {
    s.(length := s.length + 1, folded := s.folded + [token])
  }

  /** What restoring a checkpoint makes of a state: the tensors a checkpoint shares are not rolled back. */
  function Restored(s: RuntimeState, checkpoint: RuntimeState): RuntimeState {
    match s.placement
    case Pooled => s
    case InPlace => s.(length := checkpoint.length)
    case Replaced => checkpoint
  }

  function Repeat(token: Token, n: nat): (r: seq<Token>)
    ensures |r| == n
  {
    if n == 0 then [] else Repeat(token, n - 1) + [token]
  }

  /** A request's state after `late` attempts that failed past their commit, and perhaps one success. */
  function After(base: RuntimeState, token: Token, late: nat, succeeded: bool): RuntimeState {
    var step := if succeeded then 1 else 0;
    match base.placement
    case Pooled => base.(length := base.length + late + step, folded := base.folded + Repeat(token, late + step))
    case InPlace => base.(length := base.length + step, folded := base.folded + Repeat(token, late + step))
    case Replaced => base.(length := base.length + step, folded := base.folded + Repeat(token, step))
  }

  /** A failed attempt leaves the state the count of late failures describes. */
  lemma FailedStep(base: RuntimeState, token: Token, late: nat)
    ensures Restored(After(base, token, late, false), base) == After(base, token, late, false)
    ensures Restored(Committed(After(base, token, late, false), token), base) == After(base, token, late + 1, false)
    ensures Committed(After(base, token, late, false), token) == After(base, token, late, true)
  {
    assert base.folded + Repeat(token, late) + [token] == base.folded + Repeat(token, late + 1);
    assert Repeat(token, 0) == [];
    assert base.folded + Repeat(token, 1) == base.folded + [token];
  }

  /**
   A request's state is what one clean step (or none) makes of it if and only if no
   attempt on it failed past its commit, or its stepped states go to fresh tensors.
   */
  lemma CleanIff(base: RuntimeState, token: Token, late: nat, succeeded: bool)
    ensures After(base, token, 0, true) == Committed(base, token) && After(base, token, 0, false) == base
    ensures After(base, token, late, succeeded).folded == After(base, token, 0, succeeded).folded <==> late == 0 || base.placement.Replaced?
    ensures late == 0 || base.placement.Replaced? ==> After(base, token, late, succeeded) == After(base, token, 0, succeeded)
  {
    assert base.folded + [] == base.folded;
    assert Repeat(token, 1) == [token];
    if !base.placement.Replaced? && late > 0 {
      assert |After(base, token, late, succeeded).folded| != |After(base, token, 0, succeeded).folded|;
    }
  }

  // ----- the attempts on one request

  /**
   What counts of the attempts that named a request: those that failed past their commit,
   those whose input was not built, how many tokens its length is ahead because of these,
   and the last attempt.
   */
  datatype Mark = Mark(late: nat, unbuilt: nat, drift: nat, last: Option<Attempt>)

  function Marked(m: Mark, a: Attempt, id: int): Mark {
    if id !in a.ids then m
    else if a.NoRoom? then m.(last := Some(a))
    else match a.fault
      case NoFault => m.(last := Some(a))
      case Unbuilt => m.(unbuilt := m.unbuilt + 1, drift := m.drift + 1, last := Some(a))
      case BeforeCommit => m.(drift := 0, last := Some(a))
      case AfterCommit => m.(late := m.late + 1, drift := 0, last := Some(a))
  }

  function Marks(trace: seq<Attempt>, id: int): Mark {
    if trace == [] then Mark(0, 0, 0, None)
    else Marked(Marks(trace[..|trace| - 1], id), trace[|trace| - 1], id)
  }

  lemma MarksNext(trace: seq<Attempt>, a: Attempt, id: int)
    ensures Marks(trace + [a], id) == Marked(Marks(trace, id), a, id)
  {
    assert (trace + [a])[..|trace|] == trace;
  }

  /** Only the attempts that name a request count for it. */
  predicate Names(more: seq<Attempt>, ids: seq<int>) {
    forall a, id :: a in more && id in a.ids ==> id in ids
  }

  lemma {:induction false} MarksElsewhere(trace: seq<Attempt>, more: seq<Attempt>, ids: seq<int>, id: int)
    requires Names(more, ids) && id !in ids
    ensures Marks(trace + more, id) == Marks(trace, id)
  {
    if more == [] {
      assert trace + more == trace;
    } else {
      var n, a := |more| - 1, more[|more| - 1];
      assert more == more[..n] + [a] && a in more;
      MarksElsewhere(trace, more[..n], ids, id);
      assert trace + more == (trace + more[..n]) + [a];
      MarksNext(trace + more[..n], a, id);
    }
  }

  /** The last attempt on a request is the last one of what came after, if any of that names it. */
  lemma {:induction false} LastOfMore(trace: seq<Attempt>, more: seq<Attempt>, id: int)
    ensures Marks(trace + more, id).last == if Marks(more, id).last.Some? then Marks(more, id).last else Marks(trace, id).last
  {
    if more == [] {
      assert trace + more == trace;
    } else {
      var n, a := |more| - 1, more[|more| - 1];
      assert more == more[..n] + [a];
      LastOfMore(trace, more[..n], id);
      assert trace + more == (trace + more[..n]) + [a];
      MarksNext(trace + more[..n], a, id);
    }
  }

  /** Attempts only add to the counts. */
  lemma {:induction false} MarksGrow(trace: seq<Attempt>, more: seq<Attempt>, id: int)
    ensures Marks(trace + more, id).late >= Marks(trace, id).late && Marks(trace + more, id).unbuilt >= Marks(trace, id).unbuilt
  {
    if more == [] {
      assert trace + more == trace;
    } else {
      var n, a := |more| - 1, more[|more| - 1];
      assert more == more[..n] + [a];
      MarksGrow(trace, more[..n], id);
      assert trace + more == (trace + more[..n]) + [a];
      MarksNext(trace + more[..n], a, id);
    }
  }

  /** A request was in no attempt that failed past its commit, and in none that was not built. */
  lemma {:induction false} MarksAre(trace: seq<Attempt>, id: int)
    ensures Marks(trace, id).late == 0 <==> forall a :: a in trace && a.Reached? && id in a.ids ==> !a.fault.AfterCommit?
    ensures Marks(trace, id).unbuilt == 0 <==> forall a :: a in trace && a.Reached? && id in a.ids ==> !a.fault.Unbuilt?
    ensures Marks(trace, id).drift <= Marks(trace, id).unbuilt
  {
    if trace != [] {
      var n, a := |trace| - 1, trace[|trace| - 1];
      assert trace == trace[..n] + [a];
      MarksAre(trace[..n], id);
    }
  }

  // ----- the trace and the runtime's answers

  /** The attempts got the runtime's answers in order, from its `n`-th call on to before its `n'`-th. */
  ghost predicate Recorded(faults: Faults, n: nat, more: seq<Attempt>, n': nat) {
    if more == [] then n' == n
    else
      var k, a := |more| - 1, more[|more| - 1];
      if a.NoRoom? then Recorded(faults, n, more[..k], n')
      else n' > n && Recorded(faults, n, more[..k], n' - 1) && a.fault == faults(n' - 1, a.ids)
  }

  lemma {:induction false} RecordedJoin(faults: Faults, n: nat, a: seq<Attempt>, m: nat, b: seq<Attempt>, k: nat)
    requires Recorded(faults, n, a, m) && Recorded(faults, m, b, k)
    ensures Recorded(faults, n, a + b, k)
  {
    RecordedOrder(faults, n, a, m);
    if b == [] {
      assert a + b == a;
    } else {
      var last := b[|b| - 1];
      assert (a + b)[..|a + b| - 1] == a + b[..|b| - 1];
      if last.NoRoom? {
        RecordedJoin(faults, n, a, m, b[..|b| - 1], k);
      } else {
        RecordedJoin(faults, n, a, m, b[..|b| - 1], k - 1);
        RecordedOrder(faults, m, b[..|b| - 1], k - 1);
      }
    }
  }

  lemma {:induction false} RecordedOrder(faults: Faults, n: nat, more: seq<Attempt>, n': nat)
    requires Recorded(faults, n, more, n')
    ensures n <= n'
  {
    if more != [] && more[|more| - 1].NoRoom? {
      RecordedOrder(faults, n, more[..|more| - 1], n');
    }
  }

  /** Every answer in the trace is one of the runtime's. */
  lemma {:induction false} RecordedAnswers(faults: Faults, n: nat, more: seq<Attempt>, n': nat, a: Attempt) returns (call: nat)
    requires Recorded(faults, n, more, n') && a in more && a.Reached?
    ensures n <= call < n' && a.fault == faults(call, a.ids)
  {
    var k := |more| - 1;
    assert more == more[..k] + [more[k]];
    if more[k] == a {
      RecordedOrder(faults, n, more[..k], n' - 1);
      call := n' - 1;
    } else {
      call := RecordedAnswers(faults, n, more[..k], if more[k].NoRoom? then n' else n' - 1, a);
    }
  }

  /** If no call that names a request fails past its commit, none of its attempts did. */
  lemma NeverLate(faults: Faults, n: nat, trace: seq<Attempt>, n': nat, id: int)
    requires Recorded(faults, n, trace, n')
    requires forall call: nat, ids: seq<int> :: n <= call < n' && id in ids ==> !faults(call, ids).AfterCommit?
    ensures Marks(trace, id).late == 0
  {
    MarksAre(trace, id);
    forall a | a in trace && a.Reached? && id in a.ids ensures !a.fault.AfterCommit? {
      var call := RecordedAnswers(faults, n, trace, n', a);
    }
  }

  /** The `k`-th attempt names a request, and no later one does. */
  ghost predicate IsLast(trace: seq<Attempt>, k: int, id: int) {
    0 <= k < |trace| && id in trace[k].ids && forall j :: k < j < |trace| ==> id !in trace[j].ids
  }

  lemma {:induction false} LastIs(trace: seq<Attempt>, id: int) returns (k: nat)
    requires Marks(trace, id).last.Some?
    ensures IsLast(trace, k, id) && trace[k] == Marks(trace, id).last.value
  {
    var n := |trace| - 1;
    if id in trace[n].ids {
      k := n;
    } else {
      k := LastIs(trace[..n], id);
      assert trace[..n][k] == trace[k];
      forall j | k < j < |trace| ensures id !in trace[j].ids {
        assert j < n ==> trace[..n][j] == trace[j];
      }
    }
  }

  // ----- the attempts of a whole step

  /** The attempts of a bisection that never runs out of pages. */
  function Bisection(faults: Faults, n: nat, ids: seq<int>): (more: seq<Attempt>)
    ensures |more| > 0
    decreases |ids|
  {
    var fault := faults(n, ids);
    if fault.NoFault? || |ids| <= 1 then [Reached(ids, fault)]
    else
      var first := Bisection(faults, n + 1, ids[..|ids| / 2]);
      [Reached(ids, fault)] + first + Bisection(faults, n + 1 + |first|, ids[|ids| / 2..])
  }

  lemma BisectionSplits(faults: Faults, n: nat, ids: seq<int>)
    requires |ids| > 1 && !faults(n, ids).NoFault?
    ensures var first := Bisection(faults, n + 1, ids[..|ids| / 2]);
            Bisection(faults, n, ids) == [Reached(ids, faults(n, ids))] + first + Bisection(faults, n + 1 + |first|, ids[|ids| / 2..])
  {
  }

  /** The attempts of a step that never runs out of pages: they follow from the runtime's answers alone. */
  function StepAttempts(faults: Faults, n: nat, ids: seq<int>): seq<Attempt> {
    var fault := faults(n, ids);
    [Reached(ids, fault)] + if fault.NoFault? then [] else Bisection(faults, n + 1, ids)
  }

  predicate RoomForAll(more: seq<Attempt>) {
    forall a :: a in more ==> a.Reached?
  }

  lemma {:induction false} BisectionHasRoom(faults: Faults, n: nat, ids: seq<int>)
    ensures RoomForAll(Bisection(faults, n, ids))
    decreases |ids|
  {
    var fault := faults(n, ids);
    if !fault.NoFault? && |ids| > 1 {
      var first := Bisection(faults, n + 1, ids[..|ids| / 2]);
      var second := Bisection(faults, n + 1 + |first|, ids[|ids| / 2..]);
      BisectionHasRoom(faults, n + 1, ids[..|ids| / 2]);
      BisectionHasRoom(faults, n + 1 + |first|, ids[|ids| / 2..]);
      BisectionSplits(faults, n, ids);
      assert forall a :: a in Bisection(faults, n, ids) ==> a == Reached(ids, fault) || a in first || a in second;
    }
  }

  lemma {:induction false} RecordedCount(faults: Faults, n: nat, more: seq<Attempt>, n': nat)
    requires Recorded(faults, n, more, n') && RoomForAll(more)
    ensures n' == n + |more|
  {
    if more != [] {
      var k, a := |more| - 1, more[|more| - 1];
      assert more == more[..k] + [a] && a in more;
      RecordedCount(faults, n, more[..k], n' - 1);
    }
  }

  // ----- where a request stands

  /** The reservation covers one token more. */
  predicate Roomy(a: BlockAllocation) {
    a.numTokens + 1 <= a.reservedTokens
  }

  /** Where a request stands after the attempts its mark tells of, given where it started. */
  ghost predicate Standing(
    base: BlockAllocation, checkpoint: RuntimeState, token: Token, m: Mark, succeeded: bool, a: BlockAllocation, s: RuntimeState)
  {
    && a.numTokens == base.numTokens + m.drift + (if succeeded then 1 else 0)
    && s == After(checkpoint, token, m.late, succeeded)
    && (m.unbuilt == 0 ==> m.drift == 0)
    && (m.unbuilt == 0 && Roomy(base) ==> a == base.(numTokens := a.numTokens))
  }

  /** One attempt on a group that includes the request, after its pages were grown. */
  lemma StandingNext(
    base: BlockAllocation, checkpoint: RuntimeState, token: Token, m: Mark, a: BlockAllocation, grown: BlockAllocation, s: RuntimeState,
    blockSize: nat, ids: seq<int>, fault: Fault, id: int)
    requires Standing(base, checkpoint, token, m, false, a, s) && id in ids
    requires GrewOnto(a, 1, blockSize, grown) && BlocksRequired(a.reservedTokens, blockSize) <= |a.blockIds|
    ensures var m' := Marked(m, Reached(ids, fault), id);
            match fault
            case NoFault => Standing(base, checkpoint, token, m', true, grown, Committed(s, token))
            case Unbuilt => Standing(base, checkpoint, token, m', false, grown, s)
            case BeforeCommit => Standing(base, checkpoint, token, m', false, grown.(numTokens := base.numTokens), Restored(s, checkpoint))
            case AfterCommit =>
              Standing(base, checkpoint, token, m', false, grown.(numTokens := base.numTokens), Restored(Committed(s, token), checkpoint))
  {
    FailedStep(checkpoint, token, m.late);
    if m.unbuilt == 0 && Roomy(base) {
      BlocksRequiredMonotone(a.numTokens + 1, a.reservedTokens, blockSize);
      assert grown.blockIds == a.blockIds + grown.blockIds[|a.blockIds|..];
    }
    hide After, Restored, Committed, BlocksRequired;
  }
}
