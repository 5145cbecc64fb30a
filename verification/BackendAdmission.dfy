/**
 How the runtime backend admits a request: pages to the end of its longest answer and a
 recurrent-state slot, both or neither.
 */
module BackendAdmission {
  import opened Basics
  import opened BlockManager
  import opened GenerationBackend
  import opened GenerationStream

  /** Pages from the prompt to the last token but one of the longest answer. */
  function TotalKvTokens(spec: Spec): nat {
    |spec.prompt| + Max(0, spec.maxNewTokens - 1)
  }

  lemma StillPaired(a: set<int>, s: set<int>, a': set<int>, s': set<int>, id: int)
    requires a == s && (id in a' <==> id in s')
    requires forall x :: x != id ==> (x in s <==> x in s') && (x in a <==> x in a')
    ensures a' == s'
  {
    forall x ensures x in a' <==> x in s' {
      if x != id {
      }
    }
  }

  lemma SlotsAfter(s: set<int>, s': set<int>, id: int)
    requires forall x :: x != id ==> (x in s <==> x in s')
    requires id in s ==> id in s'
    ensures s' == s + if id in s' then {id} else {}
  {
    forall x ensures x in s' <==> x in s + if id in s' then {id} else {} {
      if x != id {
      }
    }
  }

  class AdmissionDesk {
    const manager: KVBlockManager
    const totalSlots: nat
    var slots: set<int>

    ghost predicate Valid()
      reads this, manager
    {
      manager.Valid() && manager.blockSize > 0 && |slots| <= totalSlots
    }

    /** Whoever has pages has a slot. */
    ghost predicate Paired()
      reads this, manager
    {
      manager.allocations.Keys == slots
    }

    /** Nobody but `id` gained or lost anything. */
    twostate predicate OthersKeep(id: int)
      reads this, manager
    {
      && (forall x :: x != id ==> (x in slots <==> x in old(slots)))
      && (forall x :: x != id ==> (x in manager.allocations <==> x in old(manager.allocations)))
      && (forall x :: x != id && x in old(manager.allocations) ==> manager.allocations[x] == old(manager.allocations)[x])
    }

    constructor (manager: KVBlockManager, totalSlots: nat)
      requires manager.Valid() && manager.blockSize > 0
      ensures Valid() && slots == {} && this.manager == manager && this.totalSlots == totalSlots
    {
      this.manager := manager;
      this.totalSlots := totalSlots;
      slots := {};
    }

    /** A request already holds both, as it should be or not. */
    ghost predicate Owns(id: int)
      reads this, manager
    {
      id in manager.allocations && id in slots
    }

    ghost predicate Compatible(id: int, initial: nat, total: nat)
      requires id in manager.allocations
      reads manager
    {
      manager.allocations[id].numTokens == initial && manager.allocations[id].reservedTokens >= total
    }

    /**
     Reserves a slot and pages for `initial` tokens now and `total` in the end. Accepted
     requests hold both; a deferred one holds neither; nobody else is touched. It is
     refused for good only if an idle worker could not hold it, or if what it already
     holds is of another size. With more tokens now than in the end it is an error.
     */
    method Reserve(id: int, initial: nat, total: nat) returns (r: Result<Decision>)
      requires Valid()
      modifies this, manager
      ensures Valid() && OthersKeep(id) && (old(Paired()) ==> Paired())
      ensures old(Paired()) ==> slots == old(slots) + if r == Ok(Accept) then {id} else {}
      ensures var tooLarge := BlocksRequired(total, manager.blockSize) > manager.numBlocks - manager.headroomBlocks;
              r == Ok(Reject) <==> tooLarge || (old(Owns(id)) && !old(Compatible(id, initial, total)))
      ensures r == Ok(Accept) ==>
                && id in slots && id in manager.allocations && Compatible(id, initial, total)
                && (!old(Owns(id)) ==>
                      && manager.allocations[id].reservedTokens == total
                      && |manager.allocations[id].blockIds| == BlocksRequired(total, manager.blockSize))
      ensures r == Ok(Reject) || old(Owns(id)) ==> slots == old(slots) && manager.allocations == old(manager.allocations)
      ensures r == Ok(Defer) || r.Err? ==> id !in slots && id !in manager.allocations
      ensures r.Err? ==> r.error == ValueError && initial > total
      ensures initial <= total && BlocksRequired(total, manager.blockSize) <= manager.numBlocks - manager.headroomBlocks
              && old(slots) == {} && totalSlots > 0 && old(manager.allocations) == map[] && |old(manager.free)| == manager.numBlocks
              ==> r == Ok(Accept)
    {
      hide Consistent, SameExternal, Lists, BlocksRequired;
      assert slots + {} == slots && (id in slots ==> slots + {id} == slots);
      if BlocksRequired(total, manager.blockSize) > manager.numBlocks - manager.headroomBlocks {
        return Ok(Reject);
      }
      var found := manager.Get(id);
      if found.Ok? && id in slots {
        if found.value.numTokens != initial || found.value.reservedTokens < total {
          return Ok(Reject);
        }
        return Ok(Accept);
      }
      Clear(id);
      r := Grant(id, initial, total);
      if old(Paired()) {
        SlotsAfter(old(slots), slots, id);
        StillPaired(old(manager.allocations).Keys, old(slots), manager.allocations.Keys, slots, id);
      }
    }

    /** Pages without a slot, or a slot without pages, are given up. */
    method Clear(id: int)
      requires Valid() && !Owns(id)
      modifies this, manager
      ensures Valid() && OthersKeep(id) && id !in slots && id !in manager.allocations
      ensures old(id !in slots && id !in manager.allocations) ==>
                slots == old(slots) && manager.allocations == old(manager.allocations) && manager.free == old(manager.free)
    {
      hide Consistent, SameExternal, Lists;
      var found := manager.Get(id);
      if found.Ok? || id in slots {
        manager.Free(id);
        Smaller(slots - {id}, slots);
        slots := slots - {id};
      }
    }

    /** A slot first, then pages; without pages the slot goes back. */
    method Grant(id: int, initial: nat, total: nat) returns (r: Result<Decision>)
      requires Valid() && id !in slots && id !in manager.allocations
      modifies this, manager
      ensures Valid() && OthersKeep(id) && (id in slots <==> id in manager.allocations)
      ensures r == Ok(Accept) <==> id in slots
      ensures r != Ok(Reject) && (r.Err? ==> r.error == ValueError && initial > total)
      ensures r == Ok(Accept) ==>
                && manager.allocations[id].numTokens == initial && manager.allocations[id].reservedTokens == total
                && |manager.allocations[id].blockIds| == BlocksRequired(total, manager.blockSize)
      ensures initial <= total && BlocksRequired(total, manager.blockSize) <= old(manager.Allocatable()) && |old(slots)| < totalSlots
              ==> r == Ok(Accept)
    {
      hide Consistent, SameExternal;
      if |slots| >= totalSlots {
        return Ok(Defer);
      }
      ghost var before := slots;
      slots := slots + {id};
      var granted := manager.Allocate(id, initial, Some(total), []);
      if granted.Err? {
        slots := slots - {id};
        assert slots == before;
        return if granted.error == MemoryError then Ok(Defer) else Err(granted.error);
      }
      r := Ok(Accept);
    }

    /** Gives both back. */
    method Release(id: int)
      requires Valid()
      modifies this, manager
      ensures Valid() && OthersKeep(id) && id !in slots && id !in manager.allocations
      ensures old(Paired()) ==> Paired()
    {
      hide Consistent, SameExternal, Lists;
      manager.Free(id);
      Smaller(slots - {id}, slots);
      slots := slots - {id};
    }

    /**
     Admission: an accepted request is housed from its first token on, and so to the end
     of its stream (`WholeLifeFits`, `DecodeNeedsNoPage`).
     */
    method Admit(spec: Spec) returns (r: Result<Decision>)
      requires Valid()
      modifies this, manager
      ensures Valid() && OthersKeep(spec.id) && (old(Paired()) ==> Paired()) && r.Ok?
      ensures r == Ok(Accept) ==> spec.id in manager.allocations && forall token :: Housed(spec, [token], manager.allocations[spec.id])
      ensures r == Ok(Accept) && !old(Owns(spec.id)) ==>
                |manager.allocations[spec.id].blockIds| == BlocksRequired(|spec.prompt| + Max(0, spec.maxNewTokens - 1), manager.blockSize)
      ensures old(Paired()) ==> slots == old(slots) + if r == Ok(Accept) then {spec.id} else {}
      ensures r == Ok(Defer) ==> spec.id !in slots && spec.id !in manager.allocations
      ensures r == Ok(Reject) || old(Owns(spec.id)) ==> slots == old(slots) && manager.allocations == old(manager.allocations)
    {
      hide Consistent, BlocksRequired;
      r := Reserve(spec.id, |spec.prompt|, TotalKvTokens(spec));
    }

    /**
     The reservation of a recovery: room for the replay, and again to the end. A history
     that is longer than the longest answer has no such reservation.
     */
    method Readmit(spec: Spec, g: seq<Token>) returns (r: Result<Decision>)
      requires Valid() && g != []
      modifies this, manager
      ensures Valid() && OthersKeep(spec.id) && (old(Paired()) ==> Paired())
      ensures r.Err? ==> r.error == ValueError && |g| > Max(1, spec.maxNewTokens) && spec.id !in slots && spec.id !in manager.allocations
      ensures r == Ok(Accept) ==> spec.id in manager.allocations && Housed(spec, g, manager.allocations[spec.id])
      ensures r == Ok(Accept) && !old(Owns(spec.id)) ==>
                |manager.allocations[spec.id].blockIds| == BlocksRequired(|spec.prompt| + Max(0, spec.maxNewTokens - 1), manager.blockSize)
      ensures old(Paired()) ==> slots == old(slots) + if r == Ok(Accept) then {spec.id} else {}
      ensures r == Ok(Defer) ==> spec.id !in slots && spec.id !in manager.allocations
      ensures r == Ok(Reject) || old(Owns(spec.id)) ==> slots == old(slots) && manager.allocations == old(manager.allocations)
    {
      hide Consistent, BlocksRequired;
      r := Reserve(spec.id, |Replay(spec, g)|, TotalKvTokens(spec));
    }
  }
}
