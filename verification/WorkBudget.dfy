/** The budgets that bound the work of one request and of each of its jobs. */
module WorkBudget {

  /** A budget of work units. Work on a job's budget also counts against its
      parent, the request's budget. */
  class Budget {
    const limit: int
    const parent: Budget?
    var used: nat
    /** This budget and every budget that its work counts against. */
    ghost const chain: set<Budget>

    /** The work counted never exceeds a limit. */
    ghost predicate Valid()
      reads this, chain
      decreases chain
    {
      && this in chain
      && (used == 0 || used <= limit)
      && (parent == null ==> chain == {this})
      && (parent != null ==>
            && parent in chain
            && this !in parent.chain
            && chain == {this} + parent.chain
            && parent.Valid())
    }

    /** The work that this budget and every budget above it have left. */
    function Remaining(): (left: nat)
      requires Valid()
      reads this, chain
      decreases chain
    {
      var own := if limit > used then limit - used else 0;
      if parent == null then own
      else
        var above := parent.Remaining();
        if own < above then own else above
    }

    /** No budget of the chain is ever exceeded. */
    lemma WithinLimits()
      requires Valid()
      ensures forall b :: b in chain ==> b.used == 0 || b.used <= b.limit
      decreases chain
    {
      if parent == null {
      } else {
        parent.WithinLimits();
      }
    }

    /** What remains is what the tightest budget of the chain has left. */
    lemma RemainingIsTightest()
      requires Valid()
      ensures Remaining() == 0 <==> exists b :: b in chain && b.used >= b.limit
      ensures forall b :: b in chain && Remaining() > 0 ==> b.used + Remaining() <= b.limit
      ensures Remaining() > 0 ==> exists b :: b in chain && b.used + Remaining() == b.limit
      decreases chain
    {
      if parent == null {
      } else {
        parent.RemainingIsTightest();
        if 0 < parent.Remaining() <= limit - used {
          var b :| b in parent.chain && b.used + parent.Remaining() == b.limit;
          assert b in chain;
        }
      }
    }

    /** Work that every budget of the chain counts lowers what remains by as much. */
    twostate lemma RemainsLess(work: nat)
      requires old(Valid()) && Valid()
      requires forall b :: b in chain ==> b.used == old(b.used) + work
      ensures Remaining() + work == old(Remaining())
      decreases chain
    {
      if parent == null {
      } else {
        parent.RemainsLess(work);
      }
    }

    constructor (limit: int, parent: Budget?)
      requires parent != null ==> parent.Valid()
      ensures Valid()
      ensures this.limit == limit && this.parent == parent && used == 0
      ensures chain == {this} + (if parent == null then {} else parent.chain)
    {
      this.limit := limit;
      this.parent := parent;
      used := 0;
      chain := {this} + (if parent == null then {} else parent.chain);
    }

    /** Takes one unit from this budget and every budget above it, or from none
        of them when one has nothing left. */
    method Take() returns (ok: bool)
      requires Valid()
      modifies chain
      ensures Valid()
      ensures ok <==> old(Remaining()) > 0
      ensures Remaining() == old(Remaining()) - (if ok then 1 else 0)
      ensures forall b :: b in chain ==> b.used == old(b.used) + (if ok then 1 else 0)
      decreases chain
    {
      if used >= limit {
        return false;
      }
      if parent != null {
        var above := parent.Take();
        if !above {
          return false;
        }
      }
      used := used + 1;
      return true;
    }
  }

  /** The budgets that work on an optional budget counts against. */
  ghost function Ledger(budget: Budget?): set<Budget> {
    if budget == null then {} else budget.chain
  }

  ghost predicate Usable(budget: Budget?)
    reads budget, Ledger(budget)
  {
    budget == null || budget.Valid()
  }

  ghost predicate Exhausted(budget: Budget?)
    requires Usable(budget)
    reads budget, Ledger(budget)
  {
    budget != null && budget.Remaining() == 0
  }

  /** A computation that either completed or ran out of its work budget. */
  datatype Attempt<T> = Done(value: T) | WorkExceeded

  /** Takes one unit of work, which always succeeds without a budget. */
  method TakeWork(budget: Budget?) returns (ok: bool)
    requires Usable(budget)
    modifies Ledger(budget)
    ensures Usable(budget)
    ensures ok <==> !old(Exhausted(budget))
    ensures !ok ==> Exhausted(budget)
    ensures forall b :: b in Ledger(budget) ==> b.used == old(b.used) + (if ok then 1 else 0)
  {
    if budget == null {
      return true;
    }
    ok := budget.Take();
  }
}
