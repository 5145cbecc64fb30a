/**
 Sizing the KV pages before the recurrent-state pool exists: what the planner holds back
 is what the pool will later find. Fractions of memory are exact reals.
 */
module MemoryPlan {
  import opened Basics

  // ----- the planner

  function Ceil(x: real): int {
    0 - (0.0 - x).Floor
  }

  /** Bytes that the pages must leave free. */
  function ReservedBytes(required: nat, fraction: real, reserve: nat, guard: nat): int
    requires 0.0 < fraction <= 1.0
  {
    Max(Ceil(required as real / fraction), required + reserve) + guard
  }

  /** The pages to allocate, given the bytes free on the device. */
  function PlanBlocks(requested: int, blockBytes: nat, required: nat, fraction: real, reserve: nat, guard: nat, free: int): Result<nat> {
    if requested <= 0 || !(0.0 < fraction <= 1.0) || blockBytes == 0 || free < 0 then Err(ValueError)
    else
      var available := Max(0, free - ReservedBytes(required, fraction, reserve, guard));
      var planned := Min(requested, Quotient(available, blockBytes));
      if planned <= 0 then Err(MemoryError) else Ok(planned)
  }

  // ----- the state pool

  function StateBudget(free: int, fraction: real, reserve: nat): int {
    Min((free as real * fraction).Floor, Max(0, free - reserve))
  }

  datatype Pool = Pool(capacity: int, workspace: int)

  /** A whole pool: a workspace is of no use beyond the slots. */
  function Served(wanted: Pool): Pool {
    Pool(wanted.capacity, Min(wanted.capacity, wanted.workspace))
  }

  function PoolBytes(p: Pool, slotBytes: nat, workspaceBytes: nat): int {
    Product(p.capacity, slotBytes) + Product(p.workspace, workspaceBytes)
  }

  /** What a pool gets that wants `wanted` within a budget, before the check that it is not empty. */
  function Sized(wanted: Pool, budget: int, slotBytes: nat, workspaceBytes: nat): Pool
    requires slotBytes > 0
  {
    var capacity := Min(wanted.capacity, Quotient(budget, slotBytes));
    var workspace := Min(Min(wanted.capacity, wanted.workspace), capacity);
    if PoolBytes(Pool(capacity, workspace), slotBytes, workspaceBytes) <= budget then Pool(capacity, workspace)
    else
      var withWorkspace := Quotient(budget - Product(workspace, workspaceBytes), slotBytes);
      if withWorkspace >= workspace then Pool(Min(capacity, withWorkspace), workspace)
      else
        var both := Min(capacity, Quotient(budget, slotBytes + workspaceBytes));
        Pool(both, Min(workspace, both))
  }

  function PoolSize(wanted: Pool, budget: int, slotBytes: nat, workspaceBytes: nat): Result<Pool>
    requires slotBytes > 0
  {
    var sized := Sized(wanted, budget, slotBytes, workspaceBytes);
    if sized.capacity <= 0 then Err(MemoryError) else Ok(sized)
  }

  // ----- arithmetic

  function Product(x: int, y: int): int {
    x * y
  }

  /** The floor of a quotient, also of a negative number. */
  function Quotient(n: int, d: nat): int
    requires d > 0
  {
    n / d
  }

  lemma QuotientFits(n: int, d: nat)
    requires d > 0
    ensures Product(Quotient(n, d), d) <= n < Product(Quotient(n, d), d) + d
  {
  }

  lemma ProductLe(x: int, y: int, k: nat)
    requires x <= y
    ensures Product(x, k) <= Product(y, k)
  {
    assert y * k == x * k + (y - x) * k;
  }

  lemma ProductSum(x: int, j: int, k: int)
    ensures Product(x, j + k) == Product(x, j) + Product(x, k)
    ensures Product(x + 1, k) == Product(x, k) + k
  {
  }

  lemma QuotientAtLeast(n: int, d: nat, k: int)
    requires d > 0 && Product(k, d) <= n
    ensures k <= Quotient(n, d)
  {
    var q := Quotient(n, d);
    QuotientFits(n, d);
    ProductSum(q, 0, d);
    if q < k {
      ProductLe(q + 1, k, d);
    }
  }

  lemma ProductQuotient(n: int, d: nat, x: int)
    requires d > 0 && x <= Quotient(n, d)
    ensures Product(x, d) <= n
  {
    QuotientFits(n, d);
    ProductLe(x, Quotient(n, d), d);
  }

  lemma FractionCovers(free: int, required: nat, fraction: real)
    requires 0.0 < fraction <= 1.0 && free >= Ceil(required as real / fraction)
    ensures (free as real * fraction).Floor >= required
  {
    var x := required as real / fraction;
    assert free as real >= x;
    assert x * fraction == required as real;
    assert free as real * fraction - x * fraction == (free as real - x) * fraction;
    assert (free as real - x) * fraction >= 0.0;
  }

  // ----- results

  /** A pool fits its budget and never exceeds what was asked. */
  lemma PoolFits(wanted: Pool, budget: nat, slotBytes: nat, workspaceBytes: nat)
    requires slotBytes > 0
    ensures var p := Sized(wanted, budget, slotBytes, workspaceBytes);
            && p.capacity <= wanted.capacity && p.workspace <= p.capacity && p.workspace <= wanted.workspace
            && PoolBytes(p, slotBytes, workspaceBytes) <= budget
  {
    hide Product, Quotient;
    var capacity := Min(wanted.capacity, Quotient(budget, slotBytes));
    var workspace := Min(Min(wanted.capacity, wanted.workspace), capacity);
    var rest := budget - Product(workspace, workspaceBytes);
    ProductQuotient(rest, slotBytes, Min(capacity, Quotient(rest, slotBytes)));
    var both := Min(capacity, Quotient(budget, slotBytes + workspaceBytes));
    ProductQuotient(budget, slotBytes + workspaceBytes, both);
    ProductSum(both, slotBytes, workspaceBytes);
    ProductLe(Min(workspace, both), both, workspaceBytes);
  }

  /** There is a pool, and with a workspace, exactly when one state slot and its workspace fit the budget. */
  lemma PoolExistsIff(wanted: Pool, budget: nat, slotBytes: nat, workspaceBytes: nat)
    requires slotBytes > 0 && wanted.capacity > 0 && wanted.workspace > 0
    ensures PoolSize(wanted, budget, slotBytes, workspaceBytes).Ok? <==> budget >= slotBytes + workspaceBytes
    ensures PoolSize(wanted, budget, slotBytes, workspaceBytes).Ok? ==> Sized(wanted, budget, slotBytes, workspaceBytes).workspace > 0
  {
    var p := Sized(wanted, budget, slotBytes, workspaceBytes);
    AtLeastOne(wanted, budget, slotBytes, workspaceBytes);
    PoolFits(wanted, budget, slotBytes, workspaceBytes);
    hide Product, Quotient, Sized;
    if p.capacity > 0 {
      ProductLe(1, p.capacity, slotBytes);
      ProductLe(1, p.workspace, workspaceBytes);
      ProductSum(0, 0, slotBytes);
      ProductSum(0, 0, workspaceBytes);
      ProductOne(slotBytes);
      ProductOne(workspaceBytes);
    }
  }

  lemma ProductOne(k: int)
    ensures Product(1, k) == k && Product(0, k) == 0
  {
  }

  lemma AtLeastOne(wanted: Pool, budget: nat, slotBytes: nat, workspaceBytes: nat)
    requires slotBytes > 0 && wanted.capacity > 0 && wanted.workspace > 0
    ensures var p := Sized(wanted, budget, slotBytes, workspaceBytes);
            && (p.capacity > 0 <==> p.workspace > 0)
            && (budget >= slotBytes + workspaceBytes ==> p.capacity > 0)
  {
    hide Product, Quotient;
    ProductOne(slotBytes);
    ProductOne(slotBytes + workspaceBytes);
    if budget >= slotBytes + workspaceBytes {
      QuotientAtLeast(budget, slotBytes, 1);
      QuotientAtLeast(budget, slotBytes + workspaceBytes, 1);
    }
  }

  /**
   The pool has its share of workspaces, and no larger pool with its share fits the
   budget: of all sizes up to what is wanted it is the largest.
   */
  lemma PoolIsLargest(wanted: Pool, budget: nat, slotBytes: nat, workspaceBytes: nat, more: nat)
    requires slotBytes > 0 && wanted.capacity >= 0 && wanted.workspace >= 0
    ensures var p := Sized(wanted, budget, slotBytes, workspaceBytes);
            && p.workspace == Min(wanted.workspace, p.capacity)
            && (more <= wanted.capacity && PoolBytes(Pool(more, Min(wanted.workspace, more)), slotBytes, workspaceBytes) <= budget ==>
                  more <= p.capacity)
  {
    hide Product, Quotient;
    var capacity := Min(wanted.capacity, Quotient(budget, slotBytes));
    QuotientAtLeast(budget, slotBytes, 0) by {
      ProductOne(slotBytes);
    }
    var w := Min(wanted.capacity, wanted.workspace);
    var workspace := Min(w, capacity);
    if PoolBytes(Pool(capacity, workspace), slotBytes, workspaceBytes) > budget {
      ProductQuotient(budget, slotBytes, capacity);
      WithinSlots(capacity, w, budget, slotBytes, workspaceBytes);
    }
    if more <= wanted.capacity && PoolBytes(Pool(more, Min(wanted.workspace, more)), slotBytes, workspaceBytes) <= budget {
      ProductLe(0, Min(wanted.workspace, more), workspaceBytes);
      ProductOne(workspaceBytes);
      QuotientAtLeast(budget, slotBytes, more);
      LargerPool(more, w, budget, slotBytes, workspaceBytes);
    }
  }

  /** A pool too large for the budget: with its workspaces it has fewer slots, or with all slots in use fewer still. */
  lemma WithinSlots(capacity: nat, w: nat, budget: nat, slotBytes: nat, workspaceBytes: nat)
    requires slotBytes > 0 && Product(capacity, slotBytes) <= budget
    requires PoolBytes(Pool(capacity, Min(w, capacity)), slotBytes, workspaceBytes) > budget
    ensures var workspace := Min(w, capacity);
            var withWorkspace, both := Quotient(budget - Product(workspace, workspaceBytes), slotBytes), Quotient(budget, slotBytes + workspaceBytes);
            && withWorkspace < capacity
            && (withWorkspace >= workspace ==> workspace == w)
            && (withWorkspace < workspace ==> both < workspace)
  {
    hide Product, Quotient;
    var workspace := Min(w, capacity);
    var rest := budget - Product(workspace, workspaceBytes);
    var withWorkspace, both := Quotient(rest, slotBytes), Quotient(budget, slotBytes + workspaceBytes);
    if withWorkspace >= capacity {
      ProductQuotient(rest, slotBytes, capacity);
    }
    if withWorkspace < workspace <= both {
      ProductQuotient(budget, slotBytes + workspaceBytes, workspace);
      ProductSum(workspace, slotBytes, workspaceBytes);
      QuotientAtLeast(rest, slotBytes, workspace);
    }
  }

  /** What a pool of `more` slots with its workspaces says about the quotients. */
  lemma LargerPool(more: nat, w: nat, budget: nat, slotBytes: nat, workspaceBytes: nat)
    requires slotBytes > 0 && PoolBytes(Pool(more, Min(w, more)), slotBytes, workspaceBytes) <= budget
    ensures more >= w ==> more <= Quotient(budget - Product(w, workspaceBytes), slotBytes)
    ensures more <= w ==> more <= Quotient(budget, slotBytes + workspaceBytes)
    ensures more > w ==> w <= Quotient(budget, slotBytes + workspaceBytes)
  {
    hide Product, Quotient;
    if more >= w {
      QuotientAtLeast(budget - Product(w, workspaceBytes), slotBytes, more);
      ProductLe(w, more, slotBytes);
      ProductSum(w, slotBytes, workspaceBytes);
      QuotientAtLeast(budget, slotBytes + workspaceBytes, w);
    }
    if more <= w {
      ProductSum(more, slotBytes, workspaceBytes);
      QuotientAtLeast(budget, slotBytes + workspaceBytes, more);
    }
  }

  /** The budget is the most whole bytes within the fraction of the free memory that leave the reserve. */
  lemma BudgetIsMost(free: nat, fraction: real, reserve: nat, bytes: nat)
    requires 0.0 < fraction <= 1.0
    ensures StateBudget(free, fraction, reserve) >= 0
    ensures bytes <= StateBudget(free, fraction, reserve) <==>
              bytes as real <= free as real * fraction && (bytes == 0 || bytes + reserve <= free)
  {
    assert free as real * fraction >= 0.0;
  }

  /** A budget for the whole of what is wanted is not cut down. */
  lemma AmpleIsFull(wanted: Pool, budget: nat, slotBytes: nat, workspaceBytes: nat)
    requires slotBytes > 0 && 0 < wanted.workspace && 0 < wanted.capacity
    requires PoolBytes(wanted, slotBytes, workspaceBytes) <= budget
    ensures PoolSize(wanted, budget, slotBytes, workspaceBytes) == Ok(Served(wanted))
  {
    hide Product, Quotient;
    ProductLe(0, wanted.workspace, workspaceBytes);
    ProductLe(Min(wanted.capacity, wanted.workspace), wanted.workspace, workspaceBytes);
    ProductOne(workspaceBytes);
    QuotientAtLeast(budget, slotBytes, wanted.capacity);
  }

  /**
   When the planner succeeds and the pages take exactly what it planned, the state pool
   that is sized afterwards, from the memory then free, gets every slot it was promised.
   */
  lemma PlanLeavesTheStates(
    requested: int, blockBytes: nat, wanted: Pool, recurrentBytes: nat, convBytes: nat,
    fraction: real, reserve: nat, guard: nat, free: int)
    requires recurrentBytes > 0 && 0 < wanted.workspace && 0 < wanted.capacity
    ensures PoolBytes(wanted, recurrentBytes, recurrentBytes + convBytes) >= 0
    ensures var r := PlanBlocks(requested, blockBytes, PoolBytes(wanted, recurrentBytes, recurrentBytes + convBytes), fraction, reserve, guard, free);
            r.Ok? ==>
              && var budget := StateBudget(free - Product(r.value, blockBytes), fraction, reserve);
              && PoolSize(wanted, budget, recurrentBytes, recurrentBytes + convBytes) == Ok(Served(wanted))
  {
    hide Product, Quotient, Ceil, PoolSize;
    ProductLe(0, wanted.capacity, recurrentBytes);
    ProductLe(0, wanted.workspace, recurrentBytes + convBytes);
    ProductOne(recurrentBytes);
    ProductOne(recurrentBytes + convBytes);
    var required := PoolBytes(wanted, recurrentBytes, recurrentBytes + convBytes);
    var r := PlanBlocks(requested, blockBytes, required, fraction, reserve, guard, free);
    if r.Ok? {
      var available := Max(0, free - ReservedBytes(required, fraction, reserve, guard));
      ProductQuotient(available, blockBytes, r.value);
      ProductLe(1, r.value, blockBytes);
      ProductOne(blockBytes);
      FractionCovers(free - Product(r.value, blockBytes), required, fraction);
      AmpleIsFull(wanted, StateBudget(free - Product(r.value, blockBytes), fraction, reserve), recurrentBytes, recurrentBytes + convBytes);
    }
  }

  /** With this many pages, the guard set aside, the states keep their fraction of the memory and the reserve is left too. */
  ghost predicate LeavesEnough(pages: nat, blockBytes: nat, required: nat, fraction: real, reserve: nat, guard: nat, free: int) {
    var left := free - Product(pages, blockBytes) - guard;
    left as real * fraction >= required as real && left >= required + reserve
  }

  lemma LeavesEnoughIff(pages: nat, blockBytes: nat, required: nat, fraction: real, reserve: nat, guard: nat, free: int)
    requires 0.0 < fraction <= 1.0
    ensures LeavesEnough(pages, blockBytes, required, fraction, reserve, guard, free) <==>
              free - Product(pages, blockBytes) >= ReservedBytes(required, fraction, reserve, guard)
  {
    var left := free - Product(pages, blockBytes) - guard;
    hide Product;
    CeilIff(left, required, fraction);
  }

  lemma CeilIff(left: int, required: nat, fraction: real)
    requires 0.0 < fraction <= 1.0
    ensures left as real * fraction >= required as real <==> left >= Ceil(required as real / fraction)
  {
    var x := required as real / fraction;
    assert x * fraction == required as real;
    var d := left as real - x;
    assert left as real * fraction - required as real == d * fraction;
    assert d >= 0.0 <==> d * fraction >= 0.0;
    assert left as real >= x <==> left >= Ceil(x);
  }

  /**
   When planning succeeds, and with how much: it fails for lack of memory only if a
   single page would not leave enough. Otherwise it shrinks the request to the most
   pages that do.
   */
  lemma PlanIs(requested: int, blockBytes: nat, required: nat, fraction: real, reserve: nat, guard: nat, free: int)
    ensures var r := PlanBlocks(requested, blockBytes, required, fraction, reserve, guard, free);
            var proper := requested > 0 && 0.0 < fraction <= 1.0 && blockBytes > 0 && free >= 0;
            && (r == Err(ValueError) <==> !proper)
            && (r == Err(MemoryError) <==> proper && !LeavesEnough(1, blockBytes, required, fraction, reserve, guard, free))
            && (r.Ok? <==> proper && LeavesEnough(1, blockBytes, required, fraction, reserve, guard, free))
            && (r.Ok? ==>
                  && 0 < r.value <= requested
                  && LeavesEnough(r.value, blockBytes, required, fraction, reserve, guard, free)
                  && (r.value == requested || !LeavesEnough(r.value + 1, blockBytes, required, fraction, reserve, guard, free)))
  {
    if requested > 0 && 0.0 < fraction <= 1.0 && blockBytes > 0 && free >= 0 {
      var reserved := ReservedBytes(required, fraction, reserve, guard);
      assert reserved >= 0 by {
        CeilIff(0, required, fraction);
      }
      var available := Max(0, free - reserved);
      var planned := Min(requested, Quotient(available, blockBytes));
      LeavesEnoughIff(1, blockBytes, required, fraction, reserve, guard, free);
      hide LeavesEnough, ReservedBytes, Product, Quotient;
      ProductOne(blockBytes);
      PagesFit(available, blockBytes, 1);
      if planned > 0 {
        PagesFit(available, blockBytes, planned);
        PagesFit(available, blockBytes, planned + 1);
        LeavesEnoughIff(planned, blockBytes, required, fraction, reserve, guard, free);
        LeavesEnoughIff(planned + 1, blockBytes, required, fraction, reserve, guard, free);
        ProductLe(1, planned, blockBytes);
      }
    }
  }

  lemma PagesFit(available: nat, blockBytes: nat, pages: nat)
    requires blockBytes > 0
    ensures Product(pages, blockBytes) <= available <==> pages <= Quotient(available, blockBytes)
  {
    if Product(pages, blockBytes) <= available {
      QuotientAtLeast(available, blockBytes, pages);
    }
    if pages <= Quotient(available, blockBytes) {
      ProductQuotient(available, blockBytes, pages);
    }
  }

  /** The planner gives the most pages it can: one more would eat into what it holds back. */
  lemma PlanIsLargest(requested: int, blockBytes: nat, required: nat, fraction: real, reserve: nat, guard: nat, free: int, more: nat)
    ensures var r := PlanBlocks(requested, blockBytes, required, fraction, reserve, guard, free);
            r.Ok? ==>
              (more <= requested && free - Product(more, blockBytes) >= ReservedBytes(required, fraction, reserve, guard) ==> more <= r.value)
  {
    var r := PlanBlocks(requested, blockBytes, required, fraction, reserve, guard, free);
    if r.Ok? && more <= requested && free - Product(more, blockBytes) >= ReservedBytes(required, fraction, reserve, guard) {
      QuotientAtLeast(Max(0, free - ReservedBytes(required, fraction, reserve, guard)), blockBytes, more);
    }
  }
}
