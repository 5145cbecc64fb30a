/**
 The decode worker's handling of one request: the command loop reserves, cancels and
 releases while a background thread receives the request's state and installs it.

 The steps below are the blocks that run under the worker's state lock, and the single
 calls outside it; they interleave in every possible way.
 */
module DecodePrepare {
  import opened Basics

  /** Where the background thread of a prepare is. */
  datatype Thread =
    | Absent
    /** Before it has the pages it receives into, and after. */
    | Receiving(granted: bool)
    | Received
    | Installed
    | Finishing(failed: bool)
    | CleaningUp(cleanup: bool)
    | Unpinning

  /** Where the command loop is with a release of this request. */
  datatype Command = Ready | DroppingLease | FreeingPages

  datatype Slot = Slot(
    reserved: bool,
    /** The request's state is installed and it occupies a state slot. */
    installed: bool,
    /** The request holds KV pages. */
    pages: bool,
    /** A host-cache lease is recorded for the request. */
    leased: bool,
    preparing: bool,
    cancelled: bool,
    thread: Thread,
    command: Command,
    pins: nat,
    unpins: nat,
    /** The last word on this request was a release. */
    ended: bool,
    /** The current prepare restores its prefix from the lease it found. */
    restoring: bool)

  const UNKNOWN := Slot(false, false, false, false, false, false, Absent, Ready, 0, 0, false, false)

  datatype Action =
    // the command loop
    | Reserve(pin: bool)
    | Prepare
    | SubmitFails
    | CancelPrepare
    | ReleaseLocked
    | ReleaseLease
    | ReleasePages
    // the background thread
    | Allocate
    | ReceiveFails
    | ReceiveDone
    | Install
    | Confirm
    | FinishLocked
    | CleanUp
    | Unpin

  predicate Live(s: Slot) {
    s.reserved || s.installed
  }

  /** Pops the lease if it is still there; whoever pops it unpins. */
  function DropLease(s: Slot): Slot {
    if s.leased then s.(leased := false, unpins := s.unpins + 1) else s
  }

  /** What a reservation changes: pages, the reservation, and a lease if something was pinned. */
  function Reserved(s: Slot, pin: bool): Slot {
    s.(reserved := true, pages := true, leased := s.leased || pin, pins := s.pins + if pin then 1 else 0, ended := false)
  }

  /** A prepare starts a new thread, which uses the reservation's pages if there is one. */
  function Prepared(s: Slot): Slot {
    s.(preparing := true, cancelled := false, thread := Receiving(s.reserved), ended := false, restoring := s.leased)
  }

  /**
   One step, where it is possible. Reservations and prepares wait here until the last
   thread has ended; what happens when they do not is below.
   */
  function Step(s: Slot, a: Action): Option<Slot> {
    match a
    case Reserve(pin) =>
      if !s.command.Ready? || !s.thread.Absent? then None
      else if Live(s) then Some(s)
      else Some(Reserved(s, pin))
    case Prepare =>
      if !s.command.Ready? then None
      else if s.preparing then Some(s)
      else if !s.thread.Absent? then None
      else Some(Prepared(s))
    case SubmitFails =>
      if !s.command.Ready? || s.preparing || !s.thread.Absent? then None
      else Some(DropLease(s).(reserved := false, installed := false, pages := false))
    case CancelPrepare =>
      if !s.command.Ready? then None
      else Some(if s.preparing then s.(cancelled := true) else s)
    case ReleaseLocked =>
      if !s.command.Ready? then None
      else if s.preparing then Some(s.(cancelled := true, ended := true))
      else Some(s.(reserved := false, installed := false, ended := true, command := DroppingLease))
    case ReleaseLease =>
      if !s.command.DroppingLease? then None
      else Some(DropLease(s).(command := FreeingPages))
    case ReleasePages =>
      if !s.command.FreeingPages? then None
      else Some(s.(pages := false, command := Ready))
    case Allocate =>
      if s.thread != Receiving(false) || s.pages then None
      else Some(s.(pages := true, thread := Receiving(true)))
    case ReceiveFails =>
      if !s.thread.Receiving? then None
      else Some(s.(pages := false, thread := Finishing(true)))
    case ReceiveDone =>
      if s.thread != Receiving(true) then None
      else Some(s.(thread := Received))
    case Install =>
      if !s.thread.Received? then None
      else if s.cancelled then Some(s.(thread := Finishing(true)))
      else Some(s.(installed := true, thread := Installed))
    case Confirm =>
      if !s.thread.Installed? then None
      else Some(s.(thread := Finishing(s.cancelled)))
    case FinishLocked =>
      if !s.thread.Finishing? then None
      else
        var cleanup := s.thread.failed || s.cancelled;
        var s' := s.(preparing := false, cancelled := false, thread := CleaningUp(cleanup));
        Some(if cleanup then s'.(reserved := false, installed := false) else s')
    case CleanUp =>
      if !s.thread.CleaningUp? then None
      else Some(s.(pages := if s.thread.cleanup then false else s.pages, thread := Unpinning))
    case Unpin =>
      if !s.thread.Unpinning? then None
      else Some(DropLease(s).(thread := Absent, restoring := false))
  }

  predicate Running(t: Thread) {
    t.Receiving? || t.Received? || t.Installed? || t.Finishing?
  }

  predicate Clean(s: Slot) {
    !s.reserved && !s.installed && !s.pages && !s.leased
  }

  /** What holds between any two steps. */
  predicate Consistent(s: Slot) {
    // one thread at a time, and the command loop knows about it
    && (s.preparing <==> Running(s.thread))
    // every pin is dropped once at most, and dropped exactly when no lease is recorded
    && s.pins == s.unpins + (if s.leased then 1 else 0)
    // nothing is freed under a running prepare, nor under an installed request
    && (s.thread == Receiving(true) || s.thread.Received? || s.thread.Installed? ==> s.pages)
    && (s.thread.Receiving? && s.reserved ==> s.pages)
    && (s.preparing && s.restoring ==> s.leased)
    && (Live(s) && !s.thread.Finishing? ==> s.pages)
    && (s.thread.Installed? || s.thread == Finishing(false) ==> s.pages && s.installed)
    && (s.installed && s.preparing ==> s.thread.Installed? || s.thread.Finishing? || s.thread.Receiving? || s.thread.Received?)
    // a release that found a prepare running leaves the cleaning up to it
    && (s.ended && s.preparing ==> s.cancelled)
    && (s.preparing ==> s.command.Ready?)
    && (s.thread == CleaningUp(true) ==> !s.reserved && !s.installed)
    // a release that found none cleans up itself
    && (!s.command.Ready? ==> s.ended && !s.reserved && !s.installed)
    && (s.command.FreeingPages? ==> !s.leased)
    // so what is left over belongs to somebody
    && (s.pages && !Live(s) ==> s.preparing || !s.command.Ready? || s.thread == CleaningUp(true))
    && (s.leased && !Live(s) ==> s.preparing || s.command.DroppingLease? || s.thread.CleaningUp? || s.thread.Unpinning?)
    && (s.ended && !s.preparing ==> !s.reserved && !s.installed)
  }

  predicate OfThread(a: Action) {
    a.Allocate? || a.ReceiveFails? || a.ReceiveDone? || a.Install? || a.Confirm? || a.FinishLocked? || a.CleanUp? || a.Unpin?
  }

  lemma CommandKeepsConsistent(s: Slot, a: Action)
    requires Consistent(s) && !OfThread(a)
    ensures Step(s, a).Some? ==> Consistent(Step(s, a).value)
  {
  }

  lemma ThreadKeepsConsistent(s: Slot, a: Action)
    requires Consistent(s) && OfThread(a)
    ensures Step(s, a).Some? ==> Consistent(Step(s, a).value)
  {
  }

  lemma StepKeepsConsistent(s: Slot, a: Action)
    requires Consistent(s)
    ensures Step(s, a).Some? ==> Consistent(Step(s, a).value)
  {
    if OfThread(a) {
      ThreadKeepsConsistent(s, a);
    } else {
      CommandKeepsConsistent(s, a);
    }
    hide Step, Consistent;
  }

  /** The state after a run, if every step of it was possible. */
  function Run(s: Slot, actions: seq<Action>): Option<Slot> {
    if actions == [] then Some(s)
    else
      var before := Run(s, actions[..|actions| - 1]);
      if before.None? then None else Step(before.value, actions[|actions| - 1])
  }

  lemma {:induction false} RunKeepsConsistent(s: Slot, actions: seq<Action>)
    requires Consistent(s)
    ensures Run(s, actions).Some? ==> Consistent(Run(s, actions).value)
  {
    if actions != [] {
      RunKeepsConsistent(s, actions[..|actions| - 1]);
      if Run(s, actions[..|actions| - 1]).Some? {
        StepKeepsConsistent(Run(s, actions[..|actions| - 1]).value, actions[|actions| - 1]);
      }
    }
  }

  /**
   Exactly-once cleanup: under every interleaving, once the thread and the command loop
   have come to rest, a released request holds nothing, and every pin was dropped once.
   */
  lemma ReleasedIsClean(actions: seq<Action>)
    requires Run(UNKNOWN, actions).Some?
    ensures var s := Run(UNKNOWN, actions).value;
            s.ended && s.thread.Absent? && s.command.Ready? ==> Clean(s) && s.pins == s.unpins
  {
    RunKeepsConsistent(UNKNOWN, actions);
  }

  // ----- coming to rest

  /** The steps that take a background thread to its end, if the receive fails now at the latest. */
  function ThreadRest(t: Thread): seq<Action> {
    match t
    case Absent => []
    case Receiving(_) => [ReceiveFails, FinishLocked, CleanUp, Unpin]
    case Received => [Install, Confirm, FinishLocked, CleanUp, Unpin]
    case Installed => [Confirm, FinishLocked, CleanUp, Unpin]
    case Finishing(_) => [FinishLocked, CleanUp, Unpin]
    case CleaningUp(_) => [CleanUp, Unpin]
    case Unpinning => [Unpin]
  }

  lemma RunSplit(s: Slot, first: Action, rest: seq<Action>)
    ensures Run(s, [first] + rest) == if Step(s, first).Some? then Run(Step(s, first).value, rest) else None
  {
    var all := [first] + rest;
    if rest == [] {
      assert all[..0] == [];
      assert Run(s, all[..0]) == Some(s);
    } else {
      assert all[..|all| - 1] == [first] + rest[..|rest| - 1];
      RunSplit(s, first, rest[..|rest| - 1]);
    }
  }

  /** The background thread never waits for anybody but its sender: it can always come to its end. */
  lemma {:induction false} ThreadCanRest(s: Slot) returns (actions: seq<Action>)
    requires Consistent(s)
    ensures forall a :: a in actions ==> OfThread(a)
    ensures Run(s, actions).Some? && Run(s, actions).value.thread.Absent?
    decreases |ThreadRest(s.thread)|
  {
    if s.thread.Absent? {
      actions := [];
    } else {
      var a := if s.thread.Received? && s.cancelled then Install else ThreadRest(s.thread)[0];
      StepKeepsConsistent(s, a);
      var next := Step(s, a).value;
      var rest := ThreadCanRest(next);
      RunSplit(s, a, rest);
      actions := [a] + rest;
    }
  }

  /**
   While a prepare runs, neither a cancel nor a release frees anything it uses: the
   pages it was given and the lease it restores from stay until the thread itself drops
   them.
   */
  lemma CommandsSpareThePrepare(s: Slot, a: Action)
    requires Consistent(s) && s.preparing && !OfThread(a) && Step(s, a).Some?
    ensures var s' := Step(s, a).value;
            && s'.pages == s.pages && s'.leased == s.leased && s'.installed == s.installed && s'.reserved == s.reserved
            && s'.preparing && s'.thread == s.thread
  {
  }

  // ----- cancelled, or not

  /** Nothing will be left of this request: its prepare was called off, and whatever that has behind it is cleaned up. */
  predicate Doomed(s: Slot) {
    && Consistent(s)
    && (s.preparing ==> s.cancelled || s.thread == Finishing(true))
    && (!s.preparing ==> !Live(s))
    && (s.thread.CleaningUp? ==> s.thread.cleanup)
    && (s.thread.Unpinning? || s.thread.Absent? ==> !s.pages)
    && (s.thread.Absent? ==> !s.leased)
  }

  /** The identifier is reserved or prepared again. */
  predicate UsesAgain(a: Action) {
    a.Reserve? || a.Prepare?
  }

  lemma DoomedStep(s: Slot, a: Action)
    requires Doomed(s) && !UsesAgain(a) && Step(s, a).Some?
    ensures Doomed(Step(s, a).value)
  {
    StepKeepsConsistent(s, a);
    hide Consistent;
  }

  lemma {:induction false} DoomedRun(s: Slot, actions: seq<Action>)
    requires Doomed(s) && (forall a :: a in actions ==> !UsesAgain(a)) && Run(s, actions).Some?
    ensures Doomed(Run(s, actions).value)
  {
    hide Doomed, Step;
    if actions != [] {
      var n := |actions| - 1;
      assert forall a :: a in actions[..n] ==> a in actions;
      DoomedRun(s, actions[..n]);
      assert actions[n] in actions;
      DoomedStep(Run(s, actions[..n]).value, actions[n]);
    }
  }

  /**
   A cancel, or a release, that finds a prepare running undoes it: whatever steps follow,
   until the identifier is reserved or prepared again, it is not live once the prepare is
   over, and once its thread has ended it has no pages, no installed state and no lease,
   and each pin was dropped once.
   */
  lemma CancelledIsClean(before: seq<Action>, cancel: Action, after: seq<Action>)
    requires Run(UNKNOWN, before).Some? && Run(UNKNOWN, before).value.preparing
    requires cancel.CancelPrepare? || cancel.ReleaseLocked?
    requires forall a :: a in after ==> !UsesAgain(a)
    ensures Step(Run(UNKNOWN, before).value, cancel).Some?
    ensures var run := Run(Run(UNKNOWN, before).value, [cancel] + after);
            run.Some? ==>
              && (!run.value.preparing ==> !run.value.reserved && !run.value.installed)
              && (run.value.thread.Absent? ==>
                    && !run.value.reserved && !run.value.installed && !run.value.pages && !run.value.leased
                    && run.value.pins == run.value.unpins)
  {
    RunKeepsConsistent(UNKNOWN, before);
    var s := Run(UNKNOWN, before).value;
    StepKeepsConsistent(s, cancel);
    var s' := Step(s, cancel).value;
    assert Doomed(s');
    RunSplit(s, cancel, after);
    if Run(s', after).Some? {
      DoomedRun(s', after);
    }
  }

  /**
   A release is for good: whether it finds a prepare running or not, and whatever steps
   follow, once the thread and the command loop have come to rest nothing is left of the
   request, until it is reserved or prepared again.
   */
  lemma {:induction false} ReleaseIsForGood(before: seq<Action>, after: seq<Action>)
    requires Run(UNKNOWN, before).Some? && Step(Run(UNKNOWN, before).value, ReleaseLocked).Some?
    requires forall a :: a in after ==> !UsesAgain(a)
    ensures var run := Run(Step(Run(UNKNOWN, before).value, ReleaseLocked).value, after);
            run.Some? && run.value.thread.Absent? && run.value.command.Ready? ==> Clean(run.value) && run.value.pins == run.value.unpins
    ensures var run := Run(Step(Run(UNKNOWN, before).value, ReleaseLocked).value, after);
            run.Some? ==> Consistent(run.value) && run.value.ended
    decreases |after|
  {
    var s := Step(Run(UNKNOWN, before).value, ReleaseLocked).value;
    if after == [] {
      RunKeepsConsistent(UNKNOWN, before);
      StepKeepsConsistent(Run(UNKNOWN, before).value, ReleaseLocked);
    } else {
      var n := |after| - 1;
      assert forall a :: a in after[..n] ==> a in after;
      ReleaseIsForGood(before, after[..n]);
      assert after[n] in after;
      if Run(s, after[..n]).Some? && Step(Run(s, after[..n]).value, after[n]).Some? {
        StepKeepsConsistent(Run(s, after[..n]).value, after[n]);
        StaysEnded(Run(s, after[..n]).value, after[n]);
      }
    }
  }

  lemma StaysEnded(s: Slot, a: Action)
    requires s.ended && !UsesAgain(a) && Step(s, a).Some?
    ensures Step(s, a).value.ended
  {
    hide Live;
    assert DropLease(s).ended;
    hide DropLease;
  }

  /** A prepare that has no reservation, of a request that has pages. */
  predicate Superfluous(s: Slot) {
    Consistent(s) && s.thread == Receiving(false) && s.pages
  }

  /**
   Such a prepare never receives onto those pages. It can only fail, and then nothing is
   left of the request.
   */
  lemma {:induction false} SecondPrepareFails(s: Slot, actions: seq<Action>)
    requires Superfluous(s) && forall a :: a in actions ==> !UsesAgain(a)
    ensures var run := Run(s, actions);
            run.Some? ==>
              && !run.value.thread.Received?
              && (run.value.thread.Absent? ==> Clean(run.value) && run.value.pins == run.value.unpins)
    ensures Run(s, actions).Some? ==> Superfluous(Run(s, actions).value) || (Doomed(Run(s, actions).value) && !OnItsWay(Run(s, actions).value.thread))
  {
    hide Step;
    if actions != [] {
      var n := |actions| - 1;
      assert forall a :: a in actions[..n] ==> a in actions;
      SecondPrepareFails(s, actions[..n]);
      assert actions[n] in actions;
      if Run(s, actions[..n]).Some? && Step(Run(s, actions[..n]).value, actions[n]).Some? {
        SuperfluousStep(Run(s, actions[..n]).value, actions[n]);
      }
    }
    RestIsPaired(s, actions);
  }

  predicate OnItsWay(t: Thread) {
    t.Receiving? || t.Received? || t.Installed?
  }

  lemma SuperfluousStep(s: Slot, a: Action)
    requires (Superfluous(s) || (Doomed(s) && !OnItsWay(s.thread))) && !UsesAgain(a) && Step(s, a).Some?
    ensures var s' := Step(s, a).value; Superfluous(s') || (Doomed(s') && !OnItsWay(s'.thread))
  {
    StepKeepsConsistent(s, a);
    hide Consistent;
  }

  lemma RestIsPaired(s: Slot, actions: seq<Action>)
    requires Consistent(s)
    ensures Run(s, actions).Some? && !Run(s, actions).value.leased ==> Run(s, actions).value.pins == Run(s, actions).value.unpins
  {
    RunKeepsConsistent(s, actions);
  }

  /** A request that was received is on its way to being installed, or is installed, on its pages. */
  predicate Landing(s: Slot) {
    && Consistent(s) && !s.cancelled && s.pages
    && (s.thread.Received? || s.installed)
    && (s.thread.Received? || s.thread.Installed? || s.thread == Finishing(false) || s.thread == CleaningUp(false) || s.thread.Unpinning? || s.thread.Absent?)
    && (s.thread.Absent? ==> !s.leased)
  }

  /** Some command calls the request off. */
  predicate CallsOff(a: Action) {
    a.CancelPrepare? || a.ReleaseLocked? || a.SubmitFails?
  }

  lemma LandingStep(s: Slot, a: Action)
    requires Landing(s) && !UsesAgain(a) && !CallsOff(a) && Step(s, a).Some?
    ensures Landing(Step(s, a).value)
  {
    StepKeepsConsistent(s, a);
  }

  /** A prepare that has received its request, and is not called off, ends with the request installed on its pages. */
  lemma {:induction false} UncancelledIsInstalled(s: Slot, actions: seq<Action>)
    requires Consistent(s) && s.thread.Received? && !s.cancelled
    requires forall a :: a in actions ==> !UsesAgain(a) && !CallsOff(a)
    ensures var run := Run(s, actions);
            run.Some? ==>
              && run.value.pages
              && (run.value.thread.Absent? ==> run.value.installed && !run.value.leased && run.value.pins == run.value.unpins)
    ensures Run(s, actions).Some? ==> Landing(Run(s, actions).value)
  {
    if actions != [] {
      var n := |actions| - 1;
      assert forall a :: a in actions[..n] ==> a in actions;
      UncancelledIsInstalled(s, actions[..n]);
      assert actions[n] in actions;
      if Run(s, actions[..n]).Some? && Step(Run(s, actions[..n]).value, actions[n]).Some? {
        LandingStep(Run(s, actions[..n]).value, actions[n]);
      }
    }
  }

  /** The steps of a prepare that goes well, once it has its pages. */
  const WELL := [ReceiveDone, Install, Confirm, FinishLocked, CleanUp, Unpin]

  /** Nothing but its sender keeps a prepare from that end: with or without a reservation, these steps are possible. */
  lemma PrepareCanSucceed(s: Slot)
    requires Consistent(s) && s.command.Ready? && s.thread.Absent? && (s.reserved <==> s.pages)
    ensures var actions := [Prepare] + ((if s.reserved then [] else [Allocate]) + WELL);
            && Run(s, actions).Some?
            && var s' := Run(s, actions).value;
            s'.installed && s'.pages && !s'.leased && s'.pins == s'.unpins && s'.thread.Absent? && s'.reserved == s.reserved
  {
    RunSplit(s, Prepare, (if s.reserved then [] else [Allocate]) + WELL);
    var prepared := Prepared(s);
    if s.reserved {
      assert [] + WELL == WELL;
      WellReceived(prepared);
    } else {
      RunSplit(prepared, Allocate, WELL);
      WellReceived(prepared.(pages := true, thread := Receiving(true)));
    }
  }

  lemma WellReceived(s: Slot)
    requires s.thread == Receiving(true) && !s.cancelled
    ensures Run(s, WELL) == Some(DropLease(s).(preparing := false, installed := true, thread := Absent, restoring := false))
  {
    hide DropLease, Run;
    var received, installed := s.(thread := Received), s.(installed := true, thread := Installed);
    var rest := [Confirm, FinishLocked, CleanUp, Unpin];
    RunSplit(s, ReceiveDone, [Install] + rest);
    RunSplit(received, Install, rest);
    assert WELL == [ReceiveDone] + ([Install] + rest);
    assert Step(s, ReceiveDone) == Some(received) && Step(received, Install) == Some(installed);
    WellInstalled(installed);
    DropLeaseKeeps(s);
  }

  lemma WellInstalled(s: Slot)
    requires s.thread.Installed? && !s.cancelled
    ensures Run(s, [Confirm, FinishLocked, CleanUp, Unpin]) ==
            Some(DropLease(s).(preparing := false, thread := Absent, restoring := false))
  {
    hide DropLease, Run;
    var finishing := s.(thread := Finishing(false));
    RunSplit(s, Confirm, [FinishLocked, CleanUp, Unpin]);
    assert [Confirm, FinishLocked, CleanUp, Unpin] == [Confirm] + [FinishLocked, CleanUp, Unpin];
    assert Step(s, Confirm) == Some(finishing);
    WellFinishing(finishing);
    DropLeaseKeeps(s);
  }

  lemma WellFinishing(s: Slot)
    requires s.thread == Finishing(false) && !s.cancelled
    ensures Run(s, [FinishLocked, CleanUp, Unpin]) ==
            Some(DropLease(s).(preparing := false, thread := Absent, restoring := false))
  {
    hide DropLease, Run;
    var finished := s.(preparing := false, thread := CleaningUp(false));
    RunSplit(s, FinishLocked, [CleanUp, Unpin]);
    assert [FinishLocked, CleanUp, Unpin] == [FinishLocked] + [CleanUp, Unpin];
    assert Step(s, FinishLocked) == Some(finished);
    RunTwo(finished, CleanUp, Unpin);
    assert Step(finished, CleanUp) == Some(finished.(thread := Unpinning));
    DropLeaseKeeps(s);
  }

  lemma DropLeaseKeeps(s: Slot)
    ensures forall preparing, installed, thread ::
              DropLease(s.(preparing := preparing, installed := installed, thread := thread)) ==
              DropLease(s).(preparing := preparing, installed := installed, thread := thread)
  {
  }

  /** A release that finds no prepare running can always be carried through, and gives everything back. */
  lemma ReleaseGivesAllBack(s: Slot)
    requires Consistent(s) && s.command.Ready? && !s.preparing
    ensures Run(s, [ReleaseLocked, ReleaseLease, ReleasePages]).Some?
    ensures var s' := Run(s, [ReleaseLocked, ReleaseLease, ReleasePages]).value; Clean(s') && s'.pins == s'.unpins && s'.command.Ready?
  {
    var locked := s.(reserved := false, installed := false, ended := true, command := DroppingLease);
    RunSplit(s, ReleaseLocked, [ReleaseLease, ReleasePages]);
    RunTwo(locked, ReleaseLease, ReleasePages);
    assert [ReleaseLocked] + [ReleaseLease, ReleasePages] == [ReleaseLocked, ReleaseLease, ReleasePages];
  }

  /** So does a prepare that cannot even be started. */
  lemma UnstartedIsClean(s: Slot)
    requires Consistent(s) && s.command.Ready? && s.thread.Absent?
    ensures Step(s, SubmitFails).Some?
    ensures var s' := Step(s, SubmitFails).value; Clean(s') && s'.pins == s'.unpins
  {
  }

  /** A request's whole life: reserved with a lease, prepared, installed, released; one pin, dropped once. */
  lemma WholeLife()
    ensures var reserved := Run(UNKNOWN, [Reserve(true)]);
            && reserved.Some? && reserved.value.reserved && reserved.value.pages && reserved.value.leased && !reserved.value.installed
            && var landed := Run(reserved.value, [Prepare] + WELL);
            && landed.Some? && landed.value.installed && landed.value.pages && !landed.value.leased
            && landed.value.pins == landed.value.unpins == 1
            && var released := Run(landed.value, [ReleaseLocked, ReleaseLease, ReleasePages]);
            && released.Some? && Clean(released.value) && released.value.pins == 1
  {
    assert [Reserve(true)][..0] == [];
    var s := Reserved(UNKNOWN, true);
    assert Run(UNKNOWN, []) == Some(UNKNOWN);
    assert Run(UNKNOWN, [Reserve(true)]) == Some(s);
    RunSplit(s, Prepare, WELL);
    WellReceived(Prepared(s));
    var landed := Run(s, [Prepare] + WELL).value;
    ReleaseGivesAllBack(landed);
    RunSplit(landed, ReleaseLocked, [ReleaseLease, ReleasePages]);
    RunTwo(Step(landed, ReleaseLocked).value, ReleaseLease, ReleasePages);
    assert [ReleaseLocked] + [ReleaseLease, ReleasePages] == [ReleaseLocked, ReleaseLease, ReleasePages];
  }

  // ----- an identifier used again too early

  /**
   An old thread that is past its last look at the shared state, beside whatever happens
   to the identifier now: it still frees the pages, and then drops the lease.
   */
  datatype Overlap = Overlap(slot: Slot, tail: Thread)

  datatype Move = Own(action: Action) | Tail

  function OverlapStep(o: Overlap, m: Move): Option<Overlap> {
    match m
    case Own(action) =>
      var next := Step(o.slot, action);
      if next.None? then None else Some(o.(slot := next.value))
    case Tail =>
      match o.tail
      case CleaningUp(cleanup) => Some(Overlap(if cleanup then o.slot.(pages := false) else o.slot, Unpinning))
      case Unpinning => Some(Overlap(DropLease(o.slot), Absent))
      case _ => None
  }

  function OverlapRun(o: Overlap, moves: seq<Move>): Option<Overlap> {
    if moves == [] then Some(o)
    else
      var before := OverlapRun(o, moves[..|moves| - 1]);
      if before.None? then None else OverlapStep(before.value, moves[|moves| - 1])
  }

  lemma OverlapSplit(o: Overlap, first: Move, rest: seq<Move>)
    ensures OverlapRun(o, [first] + rest) == if OverlapStep(o, first).Some? then OverlapRun(OverlapStep(o, first).value, rest) else None
  {
    var all := [first] + rest;
    if rest == [] {
      assert all[..0] == [];
      assert OverlapRun(o, all[..0]) == Some(o);
    } else {
      assert all[..|all| - 1] == [first] + rest[..|rest| - 1];
      OverlapSplit(o, first, rest[..|rest| - 1]);
    }
  }

  // ----- reserved again

  /**
   A reservation as the command loop makes it: it looks at the live requests only. While
   the old thread still has the pages, the allocator refuses and nothing changes.
   */
  function ReserveUnchecked(s: Slot, pin: bool): Option<Overlap> {
    if !s.command.Ready? then None
    else if Live(s) then Some(Overlap(s, Absent))
    else if s.pages then None
    else Some(Overlap(Reserved(s, pin).(thread := Absent, restoring := false), s.thread))
  }

  /** The request's own prepare or release takes the reservation over. */
  predicate TakesOver(m: Move) {
    m.Own? && (m.action.Prepare? || m.action.SubmitFails? || m.action.ReleaseLocked?)
  }

  /** The reservation stands: it has its pages, and the lease if it took one. */
  predicate Stands(s: Slot, pin: bool) {
    Consistent(s) && s.reserved && s.pages && (pin ==> s.leased)
  }

  /** However the old thread's rest comes in, the reservation stands until the request takes it over. */
  ghost predicate ReservationStands(o: Overlap, pin: bool) {
    forall moves: seq<Move> :: (forall m :: m in moves ==> !TakesOver(m)) && OverlapRun(o, moves).Some? ==>
      Stands(OverlapRun(o, moves).value.slot, pin)
  }

  /** A reservation whose old thread has no pages to free, and none of its leases to drop. */
  predicate Untroubled(o: Overlap, pin: bool) {
    && Stands(o.slot, pin) && o.slot.thread.Absent? && o.slot.command.Ready? && !o.slot.preparing
    && o.tail != CleaningUp(true) && (pin ==> o.tail.Absent?)
  }

  lemma UntroubledStep(o: Overlap, m: Move, pin: bool)
    requires Untroubled(o, pin) && !TakesOver(m) && OverlapStep(o, m).Some?
    ensures Untroubled(OverlapStep(o, m).value, pin)
  {
    if m.Own? {
      StepKeepsConsistent(o.slot, m.action);
    }
  }

  lemma {:induction false} UntroubledRun(o: Overlap, moves: seq<Move>, pin: bool)
    requires Untroubled(o, pin) && (forall m :: m in moves ==> !TakesOver(m)) && OverlapRun(o, moves).Some?
    ensures Untroubled(OverlapRun(o, moves).value, pin)
  {
    if moves != [] {
      var n := |moves| - 1;
      assert forall m :: m in moves[..n] ==> m in moves;
      UntroubledRun(o, moves[..n], pin);
      assert moves[n] in moves;
      UntroubledStep(OverlapRun(o, moves[..n]).value, moves[n], pin);
    }
  }

  /**
   Reserving an identifier again, once it is no longer preparing, is refused exactly while
   the old thread still has its pages. Otherwise the reservation stands, whatever the old
   thread's rest does, if and only if that thread has no pages left to free and is over
   if a lease was taken.
   */
  lemma EarlyReserveIff(s: Slot, pin: bool)
    requires Consistent(s) && s.command.Ready? && !Live(s) && !s.preparing
    ensures ReserveUnchecked(s, pin).None? <==> s.pages
    ensures !s.pages ==>
              (ReservationStands(ReserveUnchecked(s, pin).value, pin) <==> s.thread != CleaningUp(true) && (pin ==> s.thread.Absent?))
  {
    if !s.pages {
      var o := ReserveUnchecked(s, pin).value;
      assert OverlapRun(o, []) == Some(o);
      if s.thread != CleaningUp(true) && (pin ==> s.thread.Absent?) {
        forall moves: seq<Move> | (forall m :: m in moves ==> !TakesOver(m)) && OverlapRun(o, moves).Some?
          ensures Stands(OverlapRun(o, moves).value.slot, pin)
        {
          UntroubledRun(o, moves, pin);
        }
      } else {
        OverlapSplit(o, Tail, []);
        OverlapSplit(o, Tail, [Tail]);
        assert [Tail] + [] == [Tail];
        assert forall m :: m in [Tail] || m in [Tail] + [Tail] ==> m == Tail;
        var once, twice := OverlapRun(o, [Tail]), OverlapRun(o, [Tail] + [Tail]);
        assert !Stands(once.value.slot, pin) || (twice.Some? && !Stands(twice.value.slot, pin));
      }
    }
  }

  /** A prepare fails, its identifier is reserved again at once, and the old thread frees the new pages. */
  lemma EarlyReserveLosesItsPages()
    ensures var cleaning := Run(UNKNOWN, [Reserve(false), Prepare, ReceiveFails, FinishLocked]);
            && cleaning.Some?
            && ReserveUnchecked(cleaning.value, false).Some?
            && var again := ReserveUnchecked(cleaning.value, false).value;
            && again.slot.reserved && again.slot.pages
            && OverlapStep(again, Tail).Some?
            && var after := OverlapStep(again, Tail).value;
            after.slot.reserved && !after.slot.pages
  {
    RunFailed();
  }

  /** The same a step later, with a lease: the old thread drops the lease that was just taken. */
  lemma EarlyReserveLosesItsLease()
    ensures var cleaned := Run(UNKNOWN, [Reserve(false), Prepare, ReceiveFails, FinishLocked, CleanUp]);
            && cleaned.Some?
            && ReserveUnchecked(cleaned.value, true).Some?
            && var again := ReserveUnchecked(cleaned.value, true).value;
            && again.slot.reserved && again.slot.leased && again.slot.pins == again.slot.unpins + 1
            && OverlapStep(again, Tail).Some?
            && var after := OverlapStep(again, Tail).value;
            after.slot.reserved && !after.slot.leased && after.slot.pins == after.slot.unpins
  {
    RunFailed();
    var actions := [Reserve(false), Prepare, ReceiveFails, FinishLocked, CleanUp];
    assert actions[..4] == [Reserve(false), Prepare, ReceiveFails, FinishLocked];
  }

  /** A reservation whose prepare fails, up to its cleanup. */
  lemma RunFailed()
    ensures Run(UNKNOWN, [Reserve(false), Prepare, ReceiveFails, FinishLocked])
            == Some(UNKNOWN.(thread := CleaningUp(true)))
  {
    var s := Reserved(UNKNOWN, false);
    RunSplit(UNKNOWN, Reserve(false), [Prepare, ReceiveFails, FinishLocked]);
    RunSplit(s, Prepare, [ReceiveFails, FinishLocked]);
    RunTwo(Prepared(s), ReceiveFails, FinishLocked);
    assert [Reserve(false)] + [Prepare, ReceiveFails, FinishLocked] == [Reserve(false), Prepare, ReceiveFails, FinishLocked];
    assert [Prepare] + [ReceiveFails, FinishLocked] == [Prepare, ReceiveFails, FinishLocked];
  }

  lemma RunTwo(s: Slot, a: Action, b: Action)
    requires Step(s, a).Some?
    ensures Run(s, [a, b]) == Step(Step(s, a).value, b)
  {
    assert [a, b][..1] == [a] && [a][..0] == [];
    assert Run(s, []) == Some(s);
  }

  // ----- prepared again

  /**
   A prepare as the command loop makes it: it only looks whether one is in progress. The
   thread that was there before goes on with what it has left to do.
   */
  function PrepareUnchecked(s: Slot): Option<Overlap> {
    if !s.command.Ready? then None
    else if s.preparing then Some(Overlap(s, Absent))
    else Some(Overlap(Prepared(s), s.thread))
  }

  /** However the old thread's rest comes in before the identifier is reserved again, nothing is amiss. */
  ghost predicate OldThreadIsHarmless(o: Overlap) {
    forall moves: seq<Move> :: (forall m :: m in moves ==> !(m.Own? && m.action.Reserve?)) && OverlapRun(o, moves).Some? ==>
      Consistent(OverlapRun(o, moves).value.slot)
  }

  lemma StepRecordsNoLease(s: Slot, a: Action)
    requires !s.leased && !a.Reserve? && Step(s, a).Some?
    ensures !Step(s, a).value.leased
  {
    hide Live;
    assert DropLease(s) == s;
    hide DropLease;
  }

  /** An old thread with no pages to free and no lease to drop. */
  predicate Spent(o: Overlap) {
    Consistent(o.slot) && o.tail != CleaningUp(true) && (o.slot.leased ==> o.tail.Absent?)
  }

  lemma SpentStep(o: Overlap, m: Move)
    requires Spent(o) && !(m.Own? && m.action.Reserve?) && OverlapStep(o, m).Some?
    ensures Spent(OverlapStep(o, m).value)
  {
    if m.Own? {
      StepKeepsConsistent(o.slot, m.action);
      if !o.slot.leased {
        StepRecordsNoLease(o.slot, m.action);
      }
    }
    hide Step, Consistent;
  }

  lemma {:induction false} SpentRun(o: Overlap, moves: seq<Move>)
    requires Spent(o) && (forall m :: m in moves ==> !(m.Own? && m.action.Reserve?)) && OverlapRun(o, moves).Some?
    ensures Spent(OverlapRun(o, moves).value)
  {
    if moves != [] {
      var n := |moves| - 1;
      assert forall m :: m in moves[..n] ==> m in moves;
      SpentRun(o, moves[..n]);
      assert moves[n] in moves;
      SpentStep(OverlapRun(o, moves[..n]).value, moves[n]);
    }
  }

  /**
   Preparing an identifier again, once it is no longer preparing, is sound if and only if
   its old thread has no pages left to free and no lease left to drop.
   */
  lemma EarlyPrepareIff(s: Slot)
    requires Consistent(s) && s.command.Ready? && !s.preparing
    ensures PrepareUnchecked(s) == Some(Overlap(Prepared(s), s.thread))
    ensures OldThreadIsHarmless(Overlap(Prepared(s), s.thread)) <==> s.thread != CleaningUp(true) && (s.leased ==> s.thread.Absent?)
  {
    var o := Overlap(Prepared(s), s.thread);
    if s.thread != CleaningUp(true) && (s.leased ==> s.thread.Absent?) {
      forall moves: seq<Move> | (forall m :: m in moves ==> !(m.Own? && m.action.Reserve?)) && OverlapRun(o, moves).Some?
        ensures Consistent(OverlapRun(o, moves).value.slot)
      {
        SpentRun(o, moves);
      }
    } else {
      var moves := PrepareGoesWrong(s);
    }
  }

  /** The moves that go wrong: the old thread frees pages that were just allocated, or drops the lease under the prepare. */
  lemma PrepareGoesWrong(s: Slot) returns (moves: seq<Move>)
    requires Consistent(s) && s.command.Ready? && !s.preparing
    requires s.thread == CleaningUp(true) || (s.leased && !s.thread.Absent?)
    ensures forall m :: m in moves ==> !(m.Own? && m.action.Reserve?)
    ensures var after := OverlapRun(Overlap(Prepared(s), s.thread), moves); after.Some? && !Consistent(after.value.slot)
  {
    var o := Overlap(Prepared(s), s.thread);
    if s.thread != CleaningUp(true) {
      moves := if s.thread.Unpinning? then [Tail] else [Tail] + [Tail];
      OverlapSplit(o, Tail, []);
      OverlapSplit(o, Tail, [Tail]);
      OverlapSplit(OverlapStep(o, Tail).value, Tail, []);
      assert [Tail] + [] == [Tail];
    } else if !s.pages {
      moves := AllocatedAndFreed(o);
    } else {
      var again := Overlap(Prepared(s.(pages := false, leased := false, unpins := s.pins, cancelled := false)), s.thread);
      var rest := AllocatedAndFreed(again);
      var first := [Own(ReceiveFails), Own(FinishLocked), Own(CleanUp), Own(Unpin), Own(Prepare)];
      FailsAndAgain(s);
      moves := first + rest;
      OverlapJoin(o, first, again, rest);
    }
  }

  lemma {:induction false} OverlapJoin(o: Overlap, first: seq<Move>, middle: Overlap, rest: seq<Move>)
    requires OverlapRun(o, first) == Some(middle)
    ensures OverlapRun(o, first + rest) == OverlapRun(middle, rest)
  {
    if rest == [] {
      assert first + rest == first;
    } else {
      var n := |rest| - 1;
      assert (first + rest)[..|first + rest| - 1] == first + rest[..n];
      OverlapJoin(o, first, middle, rest[..n]);
    }
  }

  lemma AllocatedAndFreed(o: Overlap) returns (moves: seq<Move>)
    requires o.slot.thread == Receiving(false) && !o.slot.pages && o.tail == CleaningUp(true)
    ensures moves == [Own(Allocate), Tail]
    ensures var after := OverlapRun(o, moves); after.Some? && !Consistent(after.value.slot)
  {
    moves := [Own(Allocate), Tail];
    TwoMoves(o, Own(Allocate), Tail);
  }

  /** While the old thread has the pages the new prepare fails; it is made once more. */
  lemma FailsAndAgain(s: Slot)
    requires Consistent(s) && s.command.Ready? && !s.preparing && s.thread == CleaningUp(true)
    ensures OverlapRun(Overlap(Prepared(s), s.thread), [Own(ReceiveFails), Own(FinishLocked), Own(CleanUp), Own(Unpin), Own(Prepare)])
            == Some(Overlap(Prepared(s.(pages := false, leased := false, unpins := s.pins, cancelled := false)), s.thread))
  {
    var o := Overlap(Prepared(s), s.thread);
    var failed := Overlap(Prepared(s).(pages := false, preparing := false, cancelled := false, thread := Unpinning), s.thread);
    ThreeMoves(o, Own(ReceiveFails), Own(FinishLocked), Own(CleanUp));
    assert OverlapRun(o, [Own(ReceiveFails), Own(FinishLocked), Own(CleanUp)]) == Some(failed);
    var first, rest := [Own(ReceiveFails), Own(FinishLocked), Own(CleanUp)], [Own(Unpin), Own(Prepare)];
    TwoMoves(failed, Own(Unpin), Own(Prepare));
    OverlapJoin(o, first, failed, rest);
    assert first + rest == [Own(ReceiveFails), Own(FinishLocked), Own(CleanUp), Own(Unpin), Own(Prepare)];
  }

  lemma TwoMoves(o: Overlap, a: Move, b: Move)
    requires OverlapStep(o, a).Some?
    ensures OverlapRun(o, [a, b]) == OverlapStep(OverlapStep(o, a).value, b)
  {
    hide OverlapStep;
    assert [a, b][..1] == [a] && [a][..0] == [];
    assert OverlapRun(o, []) == Some(o);
  }

  lemma ThreeMoves(o: Overlap, a: Move, b: Move, c: Move)
    requires OverlapStep(o, a).Some? && OverlapStep(OverlapStep(o, a).value, b).Some?
    ensures OverlapRun(o, [a, b, c]) == OverlapStep(OverlapStep(OverlapStep(o, a).value, b).value, c)
  {
    hide OverlapStep;
    TwoMoves(o, a, b);
    assert [a, b, c][..2] == [a, b];
  }

  /** A prepare fails and is made again at once; the old thread frees the pages the new one receives into. */
  lemma EarlyPrepareLosesItsPages()
    ensures var cleaning := Run(UNKNOWN, [Prepare, ReceiveFails, FinishLocked]);
            && cleaning.Some? && PrepareUnchecked(cleaning.value).Some?
            && var again := PrepareUnchecked(cleaning.value).value;
            && OverlapRun(again, [Own(Allocate), Own(ReceiveDone), Tail]).Some?
            && var after := OverlapRun(again, [Own(Allocate), Own(ReceiveDone), Tail]).value.slot;
            after.thread.Received? && !after.pages
  {
    var actions := [Prepare, ReceiveFails, FinishLocked];
    RunTwo(UNKNOWN, Prepare, ReceiveFails);
    assert actions[..2] == [Prepare, ReceiveFails];
    assert Run(UNKNOWN, actions) == Some(UNKNOWN.(thread := CleaningUp(true)));
    ReceivedAndFreed(PrepareUnchecked(UNKNOWN.(thread := CleaningUp(true))).value);
  }

  lemma ReceivedAndFreed(o: Overlap)
    requires o.slot.thread == Receiving(false) && !o.slot.pages && o.tail == CleaningUp(true)
    ensures var after := OverlapRun(o, [Own(Allocate), Own(ReceiveDone), Tail]);
            after.Some? && after.value.slot.thread.Received? && !after.value.slot.pages
  {
    ThreeMoves(o, Own(Allocate), Own(ReceiveDone), Tail);
  }
}
