/** Dispatching free slots, the pool's operations, and what every operation keeps. */
module SlotDispatch {
  import opened SlotState
  import opened SlotSteps

  // ----- The next key is one and the same however it is found -----

  lemma WinnerIsUnique(p: Pool, a: string, b: string)
    requires Wins(p, a) && Wins(p, b)
    ensures a == b
  {
  }

  lemma {:induction false} HeadsDiffer(p: Pool, a: string, b: string)
    requires Queues(p) && Eligible(p, a) && Eligible(p, b) && a != b
    ensures p.keys[a].waiters[0] != p.keys[b].waiters[0]
  {
    HeadWaits(p, a);
    HeadWaits(p, b);
  }

  lemma {:induction false} FirstAmong(p: Pool, some: set<string>) returns (first: string)
    requires Queues(p) && some != {} && forall key :: key in some ==> Eligible(p, key)
    ensures first in some && Eligible(p, first)
    ensures forall other :: other in some && other != first ==> Eligible(p, other) && Before(p.keys[first], p.keys[other])
    decreases |some|
  {
    hide Queues;
    var key :| key in some;
    if some == {key} {
      first := key;
    } else {
      var rest := FirstAmong(p, some - {key});
      HeadsDiffer(p, key, rest);
      first := if Before(p.keys[key], p.keys[rest]) then key else rest;
    }
  }

  lemma {:induction false} WinnerExists(p: Pool, key: string) returns (winner: string)
    requires Queues(p) && Eligible(p, key)
    ensures Wins(p, winner)
  {
    var some := set other | other in p.keys && Eligible(p, other);
    assert key in some;
    winner := FirstAmong(p, some);
  }

  // ----- Dispatch -----

  lemma {:induction false} QueuedIsPositive(p: Pool, key: string)
    requires Core(p) && key in p.keys && p.keys[key].waiters != []
    ensures p.queued > 0
  {
    SumAtLeast(p.keys, true, key);
  }

  /** The pool after as many grants as it can make, each by the order of turns. */
  ghost function Drain(p: Pool): Pool
    requires Core(p)
    decreases p.queued
  {
    if p.inUse < p.capacity && exists key :: Wins(p, key) then
      var key :| Wins(p, key);
      GrantKeeps(p, key);
      QueuedIsPositive(p, key);
      Drain(GrantTo(p, key))
    else p
  }

  ghost function Dispatch(p: Pool): Pool
    requires Core(p)
  {
    Prune(Drain(p))
  }

  lemma {:induction false} DrainStep(p: Pool, key: string)
    requires Core(p) && p.inUse < p.capacity && Wins(p, key)
    ensures Core(GrantTo(p, key)) && GrantTo(p, key).queued < p.queued && p.queued > 0
    ensures Drain(p) == Drain(GrantTo(p, key))
  {
    GrantKeeps(p, key);
    QueuedIsPositive(p, key);
    assert Drain(p) == Drain(GrantTo(p, key)) by {
      var other :| Wins(p, other) && Drain(p) == Drain(GrantTo(p, other));
      WinnerIsUnique(p, key, other);
    }
  }

  lemma DrainEnds(p: Pool)
    requires Core(p) && (p.inUse >= p.capacity || forall key :: !Eligible(p, key))
    ensures Drain(p) == p
  {
  }

  /** What dispatching keeps, and what it brings about. */
  lemma {:induction false} DrainKeeps(p: Pool)
    requires Core(p) && Active(p)
    ensures Core(Drain(p)) && Active(Drain(p)) && Quiet(Drain(p))
    decreases p.queued
  {
    hide Core, Active, Wins, Drain;
    if p.inUse < p.capacity && exists key :: Eligible(p, key) {
      var key := SomeWinner(p);
      GrantKeepsCore(p, key);
      DrainStep(p, key);
      DrainKeeps(GrantTo(p, key));
    } else {
      DrainEnds(p);
    }
  }

  lemma SomeWinner(p: Pool) returns (key: string)
    requires Core(p) && exists key :: Eligible(p, key)
    ensures Wins(p, key)
  {
    var some :| Eligible(p, some);
    key := WinnerExists(p, some);
  }

  lemma GrantKeepsCore(p: Pool, key: string)
    requires Core(p) && Active(p) && Wins(p, key)
    ensures Core(GrantTo(p, key)) && Active(GrantTo(p, key))
  {
    GrantKeeps(p, key);
  }

  lemma {:induction false} DrainKeepsCalls(p: Pool)
    requires Core(p)
    ensures Drain(p).tickets.Keys == p.tickets.Keys && Drain(p).arrivals == p.arrivals
    decreases p.queued
  {
    hide Core, Wins, Drain;
    if p.inUse < p.capacity && exists key :: Eligible(p, key) {
      var key := SomeWinner(p);
      WinnerWaits(p, key);
      DrainStep(p, key);
      DrainKeepsCalls(GrantTo(p, key));
    } else {
      DrainEnds(p);
    }
  }

  lemma WinnerWaits(p: Pool, key: string)
    requires Core(p) && Wins(p, key)
    ensures key in p.keys && p.keys[key].waiters != [] && p.keys[key].waiters[0] in p.tickets
  {
    HeadWaits(p, key);
  }

  lemma DispatchKeeps(p: Pool)
    requires Core(p) && Active(p)
    ensures Valid(Dispatch(p))
  {
    hide Core, Active, Quiet, Pruned, Prune, Drain;
    DrainKeeps(p);
    PruneKeeps(Drain(p));
  }

  // ----- The operations -----

  datatype Op =
    | Acquire(key: string)
    | Cancel(ticket: nat)
    | Release(ticket: nat)
    | FailWaiters(key: string)
    | SetCapacity(capacity: int, capFor: string -> int)
    | SetCaps(caps: string -> int)

  /** Only a ticket that Acquire gave can be canceled or released. */
  predicate Allowed(p: Pool, op: Op) {
    match op
    case Cancel(t) => t in p.tickets
    case Release(t) => t in p.tickets
    case _ => true
  }

  ghost function ReturnSlot(p: Pool, t: nat): Pool
    requires Valid(p) && t in p.tickets && p.tickets[t].state.Granted?
  {
    ReturnKeeps(p, t);
    ForgetKeeps(Return(p, t), p.tickets[t].key);
    Dispatch(Forget(Return(p, t), p.tickets[t].key))
  }

  ghost function LeaveQueue(p: Pool, t: nat): Pool
    requires Valid(p) && t in p.tickets && p.tickets[t].state.Waiting?
  {
    LeaveKeeps(p, t);
    Forget(Leave(p, t), p.tickets[t].key)
  }

  function Rescale(p: Pool, capacity: int, capFor: string -> int): Pool {
    p.(capacity := capacity, capFor := capFor)
  }

  function AtLeastNone(capacity: int): int {
    if capacity > 0 then capacity else 0
  }

  lemma RescaleKeeps(p: Pool, capacity: int, capFor: string -> int)
    ensures Core(p) ==> Core(Rescale(p, capacity, capFor))
    ensures Active(p) ==> Active(Rescale(p, capacity, capFor))
  {
    hide Sum, GrantedTo, Increasing, LastGrant, ForgottenAreOlder;
    var q := Rescale(p, capacity, capFor);
    forall key
      ensures InUse(q, key) == InUse(p, key)
      ensures Waiters(q, key) == Waiters(p, key)
    {
    }
    forall key
      ensures Retained(q, key) == Retained(p, key)
    {
    }
    if Core(p) {
      SameAges(p, q);
    }
  }

  /** Each locked region is one step. */
  ghost function Apply(p: Pool, op: Op): Pool
    requires Valid(p) && Allowed(p, op)
  {
    match op
    case Acquire(key) =>
      EnqueueKeeps(p, key);
      Dispatch(Enqueue(p, key))
    case Cancel(t) =>
      if p.tickets[t].state.Waiting? then LeaveQueue(p, t)
      else if p.tickets[t].state.Granted? then ReturnSlot(p, t)
      else p
    case Release(t) =>
      if p.tickets[t].state.Granted? then ReturnSlot(p, t) else p
    case FailWaiters(key) =>
      if key in p.keys then Forget(Fail(p, key), key) else p
    case SetCapacity(capacity, capFor) =>
      RescaleKeeps(p, AtLeastNone(capacity), capFor);
      Dispatch(Rescale(p, AtLeastNone(capacity), capFor))
    case SetCaps(capFor) =>
      RescaleKeeps(p, p.capacity, capFor);
      Dispatch(Rescale(p, p.capacity, capFor))
  }

  /** After every operation no free slot coexists with a key that could take it, the
      totals are those of the keys, grant ages are those of grants, each key is first
      in, first out, and keys and idle ages exist only while they matter. */
  lemma ApplyKeeps(p: Pool, op: Op)
    requires Valid(p) && Allowed(p, op)
    ensures Valid(Apply(p, op))
  {
    hide Core, Active, Quiet, Pruned, Dispatch, Enqueue, Forget, Return, Leave, Fail, Rescale, ActiveBut;
    match op
    case Acquire(key) =>
      EnqueueKeeps(p, key);
      DispatchKeeps(Enqueue(p, key));
    case Cancel(t) =>
      if p.tickets[t].state.Waiting? {
        LeaveKeeps(p, t);
        LeftKey(p, t);
        ForgetKeeps(Leave(p, t), p.tickets[t].key);
      } else if p.tickets[t].state.Granted? {
        ReturnSlotKeeps(p, t);
      }
    case Release(t) =>
      if p.tickets[t].state.Granted? {
        ReturnSlotKeeps(p, t);
      }
    case FailWaiters(key) =>
      if key in p.keys {
        FailKeeps(p, key);
        FailedKey(p, key);
        ForgetKeeps(Fail(p, key), key);
      }
    case SetCapacity(capacity, capFor) =>
      RescaleKeeps(p, AtLeastNone(capacity), capFor);
      DispatchKeeps(Rescale(p, AtLeastNone(capacity), capFor));
    case SetCaps(capFor) =>
      RescaleKeeps(p, p.capacity, capFor);
      DispatchKeeps(Rescale(p, p.capacity, capFor));
  }

  lemma ReturnSlotKeeps(p: Pool, t: nat)
    requires Valid(p) && t in p.tickets && p.tickets[t].state.Granted?
    ensures Valid(ReturnSlot(p, t))
  {
    hide Core, Active, Quiet, Pruned, Dispatch, Forget, Return, ActiveBut;
    ReturnKeeps(p, t);
    ReturnedKey(p, t);
    ForgetKeeps(Return(p, t), p.tickets[t].key);
    DispatchKeeps(Forget(Return(p, t), p.tickets[t].key));
  }

  lemma ReturnedKey(p: Pool, t: nat)
    requires t in p.tickets && p.tickets[t].key in p.keys
    ensures p.tickets[t].key in Return(p, t).keys
  {
  }

  lemma LeftKey(p: Pool, t: nat)
    requires t in p.tickets && p.tickets[t].key in p.keys
    ensures p.tickets[t].key in Leave(p, t).keys
  {
  }

  lemma FailedKey(p: Pool, key: string)
    requires key in p.keys
    ensures key in Fail(p, key).keys
  {
  }

  function Fresh(capacity: int, capFor: string -> int): Pool {
    Pool(AtLeastNone(capacity), capFor, 0, 0, 0, 0, map[], map[], map[], [])
  }

  lemma FreshIsValid(capacity: int, capFor: string -> int)
    ensures Valid(Fresh(capacity, capFor))
  {
    var p := Fresh(capacity, capFor);
    forall key
      ensures InUse(p, key) == |GrantedTo(p.tickets, key)|
      ensures Waiters(p, key) == []
    {
    }
  }

  // ----- What the invariant says -----

  /** Positive grant ages are unique, among active and idle keys alike. */
  lemma AgesAreUnique(p: Pool, a: string, b: string)
    requires Valid(p) && a != b && Retained(p, a) > 0
    ensures Retained(p, a) != Retained(p, b)
  {
    hide Queues, Holdings, Totalled, InTurn, LastGrant;
    LastGrantIsLast(p.log, a);
    LastGrantIsLast(p.log, b);
  }

}
