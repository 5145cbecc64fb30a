/** Queues and sets that hold exactly the requests a ledger of places puts there. */
module Queues {
  import opened Basics

  /** A queue holds exactly the requests of its place, once each. */
  ghost predicate At<P>(places: map<int, P>, queue: seq<int>, p: P) {
    && Distinct(queue)
    && forall id :: id in queue <==> id in places && places[id] == p
  }

  ghost predicate SetAt<P>(places: map<int, P>, s: set<int>, p: P) {
    forall id :: id in s <==> id in places && places[id] == p
  }

  lemma AtSame<P>(places: map<int, P>, queue: seq<int>, p: P, id: int, q: P)
    requires At(places, queue, p) && q != p && (id in places ==> places[id] != p)
    ensures At(places[id := q], queue, p)
  {
  }

  lemma AtAppend<P>(places: map<int, P>, queue: seq<int>, p: P, id: int)
    requires At(places, queue, p) && (id in places ==> places[id] != p)
    ensures At(places[id := p], queue + [id], p)
  {
  }

  lemma AtPop<P>(places: map<int, P>, queue: seq<int>, p: P, q: P)
    requires At(places, queue, p) && queue != [] && q != p
    ensures queue[0] in places && places[queue[0]] == p
    ensures At(places[queue[0] := q], queue[1..], p)
  {
    var id, rest := queue[0], queue[1..];
    assert id in queue;
    assert queue == [id] + rest;
    forall x ensures x in rest <==> x in places[id := q] && places[id := q][x] == p {
      assert x in queue <==> x == id || x in rest;
    }
  }

  lemma SetAtSame<P>(places: map<int, P>, s: set<int>, p: P, id: int, q: P)
    requires SetAt(places, s, p) && q != p && (id in places ==> places[id] != p)
    ensures SetAt(places[id := q], s, p)
  {
  }

  lemma SetAtAdd<P>(places: map<int, P>, s: set<int>, p: P, id: int)
    requires SetAt(places, s, p)
    ensures SetAt(places[id := p], s + {id}, p)
  {
  }

  lemma SetAtRemove<P>(places: map<int, P>, s: set<int>, p: P, id: int, q: P)
    requires SetAt(places, s, p) && q != p
    ensures SetAt(places[id := q], s - {id}, p)
  {
  }
}
