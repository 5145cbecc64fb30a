/**
 The coordinator's routing ledger over its workers: how many requests each was given,
 and how much token work. A request is counted from the choice of its worker until its
 release has been recorded, whichever threads do that; every method here is one region
 under the state lock.
 */
module LoadLedger {
  import opened Basics

  /** What a request still weighs on its worker. */
  datatype Load = Load(work: nat, prefill: nat)

  /** Who stands behind a unit of the ledger. */
  datatype Ticket =
    /** A thread that chose a worker and waits for its reservation. */
    | Claimed(thread: int)
    /** A request bound to its worker. */
    | Bound(id: int)
    /** A thread that took a binding down and has not yet corrected the counts. */
    | Leaving(thread: int)

  datatype Entry = Entry(index: nat, load: Load)

  datatype Column = Requests | WorkTokens | PrefillTokens

  function Weight(e: Entry, i: int, column: Column): nat {
    if e.index != i then 0
    else match column
      case Requests => 1
      case WorkTokens => e.load.work
      case PrefillTokens => e.load.prefill
  }

  /** What the entries at a worker add up to. */
  ghost function Total(entries: map<Ticket, Entry>, i: int, column: Column): nat
    decreases |entries|
  {
    if entries == map[] then 0
    else
      var t :| t in entries;
      Weight(entries[t], i, column) + Total(entries - {t}, i, column)
  }

  lemma {:induction false} TotalWithout(entries: map<Ticket, Entry>, t: Ticket, i: int, column: Column)
    requires t in entries
    ensures Total(entries, i, column) == Weight(entries[t], i, column) + Total(entries - {t}, i, column)
    decreases |entries|
  {
    var first :| first in entries && Total(entries, i, column) == Weight(entries[first], i, column) + Total(entries - {first}, i, column);
    if first != t {
      TotalWithout(entries - {first}, t, i, column);
      TotalWithout(entries - {t}, first, i, column);
      assert entries - {first} - {t} == entries - {t} - {first};
    }
  }

  lemma TotalWith(entries: map<Ticket, Entry>, t: Ticket, e: Entry, i: int, column: Column)
    requires t !in entries
    ensures Total(entries[t := e], i, column) == Weight(e, i, column) + Total(entries, i, column)
  {
    TotalWithout(entries[t := e], t, i, column);
    assert entries[t := e] - {t} == entries;
  }

  /** A column of the ledger counts exactly the entries. */
  ghost predicate Adds(counts: seq<int>, entries: map<Ticket, Entry>, column: Column) {
    forall i :: 0 <= i < |counts| ==> counts[i] == Total(entries, i, column)
  }

  function Plus(counts: seq<int>, index: nat, weight: int): seq<int>
    requires index < |counts|
  {
    counts[index := counts[index] + weight]
  }

  /** The ledger's own subtraction, which never goes below zero. */
  function Minus(counts: seq<int>, index: nat, weight: int): seq<int>
    requires index < |counts|
  {
    counts[index := Max(0, counts[index] - weight)]
  }

  lemma Joins(counts: seq<int>, entries: map<Ticket, Entry>, t: Ticket, e: Entry, column: Column)
    requires Adds(counts, entries, column) && t !in entries && e.index < |counts|
    ensures Adds(Plus(counts, e.index, Weight(e, e.index, column)), entries[t := e], column)
  {
    forall i | 0 <= i < |counts| ensures Total(entries[t := e], i, column) == Weight(e, i, column) + Total(entries, i, column) {
      TotalWith(entries, t, e, i, column);
    }
  }

  /** An entry leaves a column that counts it: the subtraction is not cut off at zero. */
  lemma Leaves(counts: seq<int>, entries: map<Ticket, Entry>, t: Ticket, column: Column)
    requires Adds(counts, entries, column) && t in entries && entries[t].index < |counts|
    ensures var e := entries[t]; var w := Weight(e, e.index, column);
            && Minus(counts, e.index, w) == Plus(counts, e.index, 0 - w)
            && Adds(Minus(counts, e.index, w), entries - {t}, column)
  {
    forall i | 0 <= i < |counts| ensures Total(entries, i, column) == Weight(entries[t], i, column) + Total(entries - {t}, i, column) {
      TotalWithout(entries, t, i, column);
    }
  }

  /** An entry leaves, but what it weighs is taken off another worker: its own still counts it. */
  lemma LeavesElsewhere(counts: seq<int>, entries: map<Ticket, Entry>, t: Ticket, index: nat, column: Column)
    requires Adds(counts, entries, column) && t in entries && entries[t].index < |counts| && index < |counts|
    requires entries[t].index != index && Weight(entries[t], entries[t].index, column) > 0
    ensures forall w :: !Adds(Minus(counts, index, w), entries - {t}, column)
  {
    var i := entries[t].index;
    TotalWithout(entries, t, i, column);
    assert forall w :: Minus(counts, index, w)[i] == counts[i];
  }

  /** Who stands behind an entry does not matter to the counts. */
  lemma Passes(counts: seq<int>, entries: map<Ticket, Entry>, t: Ticket, t': Ticket, column: Column)
    requires Adds(counts, entries, column) && t in entries && t' !in entries
    ensures Adds(counts, (entries - {t})[t' := entries[t]], column)
  {
    forall i | 0 <= i < |counts| ensures counts[i] == Total((entries - {t})[t' := entries[t]], i, column) {
      TotalWithout(entries, t, i, column);
      TotalWith(entries - {t}, t', entries[t], i, column);
    }
  }

  datatype Request = Request(id: int, promptTokens: nat, maxNewTokens: nat)

  function RequestWork(q: Request): nat {
    q.promptTokens + Max(1, q.maxNewTokens)
  }

  function LoadOf(q: Request): Load {
    Load(RequestWork(q), q.promptTokens)
  }

  class LoadLedger {
    var assignedRequests: seq<int>
    var assignedWork: seq<int>
    var prefillTokens: seq<int>
    var bound: map<int, nat>
    var loads: map<int, Load>
    ghost var entries: map<Ticket, Entry>

    ghost predicate Kept()
      reads this
    {
      && |assignedRequests| == |assignedWork| == |prefillTokens|
      && bound.Keys == loads.Keys
      && (forall t :: t in entries ==> entries[t].index < |assignedRequests|)
      && (forall id :: id in bound <==> Bound(id) in entries)
      && (forall id :: id in bound ==>
            && entries[Bound(id)] == Entry(bound[id], loads[id])
            && loads[id].prefill < loads[id].work)
    }

    /** Every column counts exactly the claimed, bound and leaving requests of each worker. */
    ghost predicate Balanced()
      reads this
    {
      && Kept()
      && Adds(assignedRequests, entries, Requests)
      && Adds(assignedWork, entries, WorkTokens)
      && Adds(prefillTokens, entries, PrefillTokens)
    }

    constructor (workers: nat)
      ensures Balanced() && entries == map[] && bound == map[] && loads == map[] && |assignedRequests| == workers
    {
      assignedRequests, assignedWork, prefillTokens := seq(workers, _ => 0), seq(workers, _ => 0), seq(workers, _ => 0);
      bound, loads, entries := map[], map[], map[];
    }

    /** A thread gives a request to a worker, before it asks the worker. */
    method Claim(thread: int, index: nat, q: Request)
      requires Balanced() && index < |assignedRequests| && Claimed(thread) !in entries
      modifies this`assignedRequests, this`assignedWork, this`prefillTokens, this`entries
      ensures Balanced() && |assignedRequests| == |old(assignedRequests)|
      ensures entries == old(entries)[Claimed(thread) := Entry(index, LoadOf(q))]
      ensures assignedRequests == old(assignedRequests)[index := old(assignedRequests)[index] + 1]
      ensures |old(assignedWork)| == |old(prefillTokens)| == |old(assignedRequests)|
      ensures assignedWork == old(assignedWork)[index := old(assignedWork)[index] + q.promptTokens + Max(1, q.maxNewTokens)]
      ensures prefillTokens == old(prefillTokens)[index := old(prefillTokens)[index] + q.promptTokens]
    {
      hide Adds, Total;
      ghost var t, e := Claimed(thread), Entry(index, LoadOf(q));
      Joins(assignedRequests, entries, t, e, Requests);
      Joins(assignedWork, entries, t, e, WorkTokens);
      Joins(prefillTokens, entries, t, e, PrefillTokens);
      assignedRequests := Plus(assignedRequests, index, 1);
      assignedWork := Plus(assignedWork, index, RequestWork(q));
      prefillTokens := Plus(prefillTokens, index, q.promptTokens);
      entries := entries[t := e];
    }

    /**
     One request less on a worker, with the load an entry carries. If that is the entry's
     worker no subtraction is cut off and the ledger stays exact; at any other it does not.
     */
    method Unassign(ghost t: Ticket, index: nat, load: Load)
      requires Balanced() && t in entries && entries[t].load == load && !t.Bound? && index < |assignedRequests|
      modifies this`assignedRequests, this`assignedWork, this`prefillTokens, this`entries
      ensures Kept() && entries == old(entries) - {t}
      ensures Balanced() <==> old(entries)[t].index == index
      ensures assignedRequests == Minus(old(assignedRequests), index, 1)
      ensures assignedWork == Minus(old(assignedWork), index, load.work)
      ensures prefillTokens == Minus(old(prefillTokens), index, load.prefill)
      ensures old(entries)[t].index == index ==>
                && assignedRequests == Plus(old(assignedRequests), index, -1)
                && assignedWork == Plus(old(assignedWork), index, 0 - load.work)
                && prefillTokens == Plus(old(prefillTokens), index, 0 - load.prefill)
    {
      hide Adds, Total;
      if entries[t].index == index {
        Leaves(assignedRequests, entries, t, Requests);
        Leaves(assignedWork, entries, t, WorkTokens);
        Leaves(prefillTokens, entries, t, PrefillTokens);
      } else {
        LeavesElsewhere(assignedRequests, entries, t, index, Requests);
      }
      assignedRequests := Minus(assignedRequests, index, 1);
      assignedWork := Minus(assignedWork, index, load.work);
      prefillTokens := Minus(prefillTokens, index, load.prefill);
      entries := entries - {t};
    }

    /** The worker accepted the reservation: the claim becomes the request's own. */
    method Bind(thread: int, index: nat, q: Request)
      requires Balanced() && Claimed(thread) in entries && entries[Claimed(thread)] == Entry(index, LoadOf(q))
      requires q.id !in bound
      modifies this`bound, this`loads, this`entries
      ensures Balanced() && bound == old(bound)[q.id := index]
      ensures loads == old(loads)[q.id := Load(q.promptTokens + Max(1, q.maxNewTokens), q.promptTokens)]
      ensures entries == (old(entries) - {Claimed(thread)})[Bound(q.id) := Entry(index, LoadOf(q))]
    {
      hide Adds, Total;
      ghost var t := Claimed(thread);
      Passes(assignedRequests, entries, t, Bound(q.id), Requests);
      Passes(assignedWork, entries, t, Bound(q.id), WorkTokens);
      Passes(prefillTokens, entries, t, Bound(q.id), PrefillTokens);
      bound := bound[q.id := index];
      loads := loads[q.id := LoadOf(q)];
      entries := (entries - {t})[Bound(q.id) := Entry(index, LoadOf(q))];
    }

    /**
     The request's prompt no longer weighs on the worker that ran its prefill, however that
     ended; once. The ledger stays exact if and only if the request, as far as its prompt
     still weighs, is bound to that worker.
     */
    method MarkPrefillComplete(id: int, index: nat)
      requires Balanced() && index < |assignedRequests|
      modifies this`assignedWork, this`prefillTokens, this`loads, this`entries
      ensures Kept() && |assignedWork| == |old(assignedWork)|
      ensures Balanced() <==> id !in old(loads) || old(loads)[id].prefill == 0 || bound[id] == index
      ensures id !in old(loads) ==> loads == old(loads) && assignedWork == old(assignedWork) && prefillTokens == old(prefillTokens)
      ensures id in old(loads) ==>
                && var load := old(loads)[id];
                && loads == old(loads)[id := Load(load.work - load.prefill, 0)]
                && index < |old(assignedWork)| == |old(prefillTokens)|
                && assignedWork == (if load.prefill == 0 then old(assignedWork) else Minus(old(assignedWork), index, load.prefill))
                && prefillTokens == (if load.prefill == 0 then old(prefillTokens) else Minus(old(prefillTokens), index, load.prefill))
                && (bound[id] == index ==>
                      && assignedWork == Plus(old(assignedWork), index, 0 - load.prefill)
                      && prefillTokens == Plus(old(prefillTokens), index, 0 - load.prefill))
    {
      hide Adds, Total;
      if id !in loads {
        return;
      }
      var load := loads[id];
      if load.prefill == 0 {
        return;
      }
      ghost var e' := Entry(bound[id], Load(load.work - load.prefill, 0));
      Lightens(assignedRequests, entries, Bound(id), e', Requests);
      assert Minus(assignedRequests, bound[id], 0) == assignedRequests by {
        assert Plus(assignedRequests, bound[id], 0) == assignedRequests;
      }
      if bound[id] == index {
        Lightens(assignedWork, entries, Bound(id), e', WorkTokens);
        Lightens(prefillTokens, entries, Bound(id), e', PrefillTokens);
      } else {
        LightensElsewhere(prefillTokens, entries, Bound(id), e', index, PrefillTokens);
      }
      prefillTokens := Minus(prefillTokens, index, load.prefill);
      assignedWork := Minus(assignedWork, index, load.prefill);
      loads := loads[id := Load(Max(1, load.work - load.prefill), 0)];
      entries := entries[Bound(id) := e'];
    }

    /** First half of the end of a release: the binding and the load are taken down together. */
    method TakeDown(thread: int, id: int) returns (load: Option<Load>)
      requires Balanced() && Leaving(thread) !in entries
      modifies this`bound, this`loads, this`entries
      ensures Balanced() && bound == old(bound) - {id} && loads == old(loads) - {id}
      ensures load == if id in old(loads) then Some(old(loads)[id]) else None
      ensures load.Some? ==>
                && id in old(bound)
                && entries == (old(entries) - {Bound(id)})[Leaving(thread) := Entry(old(bound)[id], load.value)]
      ensures load.None? ==> entries == old(entries)
    {
      hide Adds, Total;
      if id !in bound {
        assert bound - {id} == bound && loads - {id} == loads;
        return None;
      }
      ghost var t, index := Leaving(thread), bound[id];
      Passes(assignedRequests, entries, Bound(id), t, Requests);
      Passes(assignedWork, entries, Bound(id), t, WorkTokens);
      Passes(prefillTokens, entries, Bound(id), t, PrefillTokens);
      load := Some(loads[id]);
      entries := (entries - {Bound(id)})[t := Entry(index, loads[id])];
      bound := bound - {id};
      loads := loads - {id};
    }

    /**
     Second half of the end of a release, for the worker the request was bound to when
     the release began. What it took down may meanwhile have been another binding of the
     request, at another worker, or nothing; the request count drops all the same. The
     ledger stays exact if and only if it took the binding down at that worker, or took
     nothing down and the worker's count was zero.
     */
    method EndRelease(thread: int, index: nat, load: Option<Load>)
      requires Balanced() && index < |assignedRequests|
      requires load.Some? ==> Leaving(thread) in entries && entries[Leaving(thread)].load == load.value
      modifies this`assignedRequests, this`assignedWork, this`prefillTokens, this`entries
      ensures Kept() && |assignedRequests| == |old(assignedRequests)|
      ensures Balanced() <==> if load.Some? then old(entries)[Leaving(thread)].index == index else old(assignedRequests)[index] == 0
      ensures assignedRequests == Minus(old(assignedRequests), index, 1)
      ensures load.Some? ==>
                && entries == old(entries) - {Leaving(thread)}
                && index < |old(assignedWork)| == |old(prefillTokens)|
                && assignedWork == Minus(old(assignedWork), index, load.value.work)
                && prefillTokens == Minus(old(prefillTokens), index, load.value.prefill)
      ensures load.None? ==> entries == old(entries) && assignedWork == old(assignedWork) && prefillTokens == old(prefillTokens)
    {
      if load.Some? {
        Unassign(Leaving(thread), index, load.value);
      } else {
        hide Total;
        assignedRequests := Minus(assignedRequests, index, 1);
        assert old(assignedRequests)[index] == Total(entries, index, Requests);
      }
    }
  }

  /** An entry's load changes: the column drops by the difference. */
  lemma Lightens(counts: seq<int>, entries: map<Ticket, Entry>, t: Ticket, e: Entry, column: Column)
    requires Adds(counts, entries, column) && t in entries && entries[t].index == e.index < |counts|
    requires Weight(e, e.index, column) <= Weight(entries[t], e.index, column)
    ensures var less := Weight(entries[t], e.index, column) - Weight(e, e.index, column);
            && Minus(counts, e.index, less) == Plus(counts, e.index, 0 - less)
            && Adds(Minus(counts, e.index, less), entries[t := e], column)
  {
    Leaves(counts, entries, t, column);
    var w: int := Weight(entries[t], e.index, column);
    Joins(Minus(counts, e.index, w), entries - {t}, t, e, column);
    assert (entries - {t})[t := e] == entries[t := e];
    assert Plus(Plus(counts, e.index, 0 - w), e.index, Weight(e, e.index, column)) ==
           Plus(counts, e.index, Weight(e, e.index, column) - w);
    TotalWithout(entries, t, e.index, column);
  }

  /** An entry's load drops, but the difference is taken off another worker: its own still counts the old load. */
  lemma LightensElsewhere(counts: seq<int>, entries: map<Ticket, Entry>, t: Ticket, e: Entry, index: nat, column: Column)
    requires Adds(counts, entries, column) && t in entries && entries[t].index == e.index < |counts| && index < |counts|
    requires index != e.index && Weight(e, e.index, column) < Weight(entries[t], e.index, column)
    ensures forall w :: !Adds(Minus(counts, index, w), entries[t := e], column)
  {
    var i := e.index;
    TotalWithout(entries, t, i, column);
    TotalWithout(entries[t := e], t, i, column);
    assert entries[t := e] - {t} == entries - {t};
    assert forall w :: Minus(counts, index, w)[i] == counts[i];
  }

  /** With no request claimed, bound or leaving, every count is zero. */
  lemma IdleIsZero(ledger: LoadLedger, i: nat)
    requires ledger.Balanced() && ledger.entries == map[] && i < |ledger.assignedRequests|
    ensures ledger.assignedRequests[i] == ledger.assignedWork[i] == ledger.prefillTokens[i] == 0
  {
  }

  lemma OneEntry(t: Ticket, e: Entry, i: nat, column: Column)
    ensures Total(map[t := e], i, column) == Weight(e, i, column)
  {
    TotalWithout(map[t := e], t, i, column);
    assert map[t := e] - {t} == map[];
  }

  lemma TwoEntries(t: Ticket, e: Entry, t': Ticket, e': Entry, i: nat, column: Column)
    requires t != t'
    ensures Total(map[t := e, t' := e'], i, column) == Weight(e, i, column) + Weight(e', i, column)
  {
    TotalWith(map[t := e], t', e', i, column);
    OneEntry(t, e, i, column);
    assert map[t := e][t' := e'] == map[t := e, t' := e'];
  }

  /** Claims a worker for a request and binds it. */
  method Place(ledger: LoadLedger, index: nat, q: Request)
    requires ledger.Balanced() && index < |ledger.assignedRequests| && q.id !in ledger.bound && Claimed(1) !in ledger.entries
    modifies ledger
    ensures ledger.Balanced() && |ledger.assignedRequests| == |old(ledger.assignedRequests)|
    ensures ledger.bound == old(ledger.bound)[q.id := index] && ledger.loads == old(ledger.loads)[q.id := LoadOf(q)]
    ensures ledger.entries == old(ledger.entries)[Bound(q.id) := Entry(index, LoadOf(q))]
  {
    hide Adds, Total, LoadLedger.Balanced;
    ledger.Claim(1, index, q);
    ledger.Bind(1, index, q);
    assert ledger.entries == old(ledger.entries)[Bound(q.id) := Entry(index, LoadOf(q))];
  }

  const FIRST := Request(7, 3, 2)

  const SECOND := Request(8, 3, 2)

  /** Two requests on the first worker, both bound. */
  method TwoBound(workers: nat) returns (ledger: LoadLedger)
    requires workers > 0
    ensures fresh(ledger) && ledger.Balanced() && |ledger.assignedRequests| == workers
    ensures ledger.bound == map[7 := 0, 8 := 0] && 7 in ledger.loads
    ensures ledger.entries == map[Bound(7) := Entry(0, ledger.loads[7]), Bound(8) := Entry(0, LoadOf(SECOND))]
  {
    hide Adds, Total, LoadOf, LoadLedger.Balanced;
    ledger := new LoadLedger(workers);
    Place(ledger, 0, FIRST);
    Place(ledger, 0, SECOND);
  }

  /**
   Two threads release a request at once while another is bound to the same worker. One
   finds the binding and the load, the other neither: the worker counts nobody although
   it has a request.
   */
  method TwoReleasesAtOnce() returns (ledger: LoadLedger)
    ensures !ledger.Balanced()
    ensures ledger.bound == map[8 := 0] && ledger.assignedRequests == [0]
  {
    hide Adds, Total, LoadOf, LoadLedger.Balanced;
    ledger := TwoBound(1);
    var one := ledger.TakeDown(1, 7);
    var two := ledger.TakeDown(2, 7);
    ledger.EndRelease(1, 0, one);
    ghost var e := Entry(0, LoadOf(SECOND));
    assert ledger.entries == map[Bound(8) := e];
    OneEntry(Bound(8), e, 0, Requests);
    Counted(ledger, 0);
    ledger.EndRelease(2, 0, two);
  }

  /**
   A release begins, another one of the same request finishes, and the request comes back
   on a second worker. The first release then takes that binding down, but takes its load
   off the first worker, which has another request and now counts nobody; the second
   worker counts a request that is gone.
   */
  method ReboundDuringRelease() returns (ledger: LoadLedger)
    ensures !ledger.Balanced()
    ensures ledger.bound == map[8 := 0] && ledger.assignedRequests == [0, 1]
  {
    hide Adds, Total, LoadOf, LoadLedger.Balanced, Minus;
    ledger := TwoBound(2);
    var began := 0;
    var one := ledger.TakeDown(2, 7);
    ledger.EndRelease(2, began, one);
    ghost var e, e' := Entry(0, LoadOf(SECOND)), Entry(1, LoadOf(FIRST));
    assert ledger.entries == map[Bound(8) := e];
    Place(ledger, 1, FIRST);
    var two := ledger.TakeDown(1, 7);
    assert ledger.entries == map[Bound(8) := e, Leaving(1) := e'];
    TwoEntries(Bound(8), e, Leaving(1), e', 0, Requests);
    TwoEntries(Bound(8), e, Leaving(1), e', 1, Requests);
    Counted(ledger, 0);
    Counted(ledger, 1);
    assert ledger.assignedRequests == [1, 1];
    ledger.EndRelease(1, began, two);
    assert Minus([1, 1], 0, 1) == [0, 1] by {
      OneLess();
    }
  }

  lemma OneLess()
    ensures Minus([1, 1], 0, 1) == [0, 1]
  {
  }

  lemma Counted(ledger: LoadLedger, i: nat)
    requires ledger.Balanced() && i < |ledger.assignedRequests|
    ensures ledger.assignedRequests[i] == Total(ledger.entries, i, Requests)
  {
  }

  // ----- capacity reports

  datatype Report = Report(version: int, capacity: int)

  /** One capacity report arrives; an older one than the last is ignored. */
  function Heard(last: Report, report: Report): Report {
    if 0 <= report.version < last.version then last
    else Report(if report.version >= 0 then report.version else last.version, report.capacity)
  }

  function HeardAll(last: Report, reports: seq<Report>): Report {
    if reports == [] then last else Heard(HeardAll(last, reports[..|reports| - 1]), reports[|reports| - 1])
  }

  /** A report without a number always stands, and does not let an older one pass afterwards. */
  lemma UnnumberedStands(last: Report, reports: seq<Report>, report: Report)
    requires report.version < 0
    ensures HeardAll(last, reports + [report]) == Report(HeardAll(last, reports).version, report.capacity)
  {
    assert (reports + [report])[..|reports|] == reports;
  }

  /** In whatever order numbered reports arrive, the newest one stands. */
  lemma {:induction false} NewestStands(last: Report, reports: seq<Report>, newest: Report)
    requires newest in reports
    requires forall r :: r in reports ==> 0 <= r.version && (r.version < newest.version || r == newest)
    requires last.version < newest.version
    ensures HeardAll(last, reports) == newest
  {
    var n := |reports| - 1;
    assert reports == reports[..n] + [reports[n]];
    if newest in reports[..n] {
      NewestStands(last, reports[..n], newest);
    } else {
      NeverBeyond(last, reports[..n], newest.version);
    }
  }

  /** A report with the number of the newest one so far replaces it. */
  lemma LatestStands(last: Report, reports: seq<Report>, report: Report)
    requires 0 <= report.version && last.version <= report.version
    requires forall r :: r in reports ==> r.version <= report.version
    ensures HeardAll(last, reports + [report]) == report
  {
    assert (reports + [report])[..|reports|] == reports;
    NeverBeyond(last, reports, report.version + 1);
  }

  lemma {:induction false} NeverBeyond(last: Report, reports: seq<Report>, version: int)
    requires last.version < version && forall r :: r in reports ==> r.version < version
    ensures HeardAll(last, reports).version < version
  {
    if reports != [] {
      var n := |reports| - 1;
      assert reports == reports[..n] + [reports[n]];
      NeverBeyond(last, reports[..n], version);
    }
  }
}
