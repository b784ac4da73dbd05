/** What the pool's operations do to each Acquire call. */
module SlotTickets {
  import opened SlotState
  import opened SlotSteps
  import opened SlotDispatch

  predicate Targets(op: Op, t: nat) {
    op == Cancel(t) || op == Release(t)
  }

  /** A call is granted or failed while it waits, and ends only by its own operation. */
  predicate Moves(a: Ticket, b: Ticket, targeted: bool) {
    && a.key == b.key
    && (b.state == a.state || (a.state.Waiting? && (b.state.Granted? || b.state.Failed?)) || (targeted && b.state.Over?))
  }

  /** Every call moves as it may. */
  ghost predicate AllMove(p: Pool, q: Pool, op: Op) {
    forall t :: t in p.tickets ==> t in q.tickets && Moves(p.tickets[t], q.tickets[t], Targets(op, t))
  }

  ghost predicate GrantsOnly(p: Pool, q: Pool) {
    && q.tickets.Keys == p.tickets.Keys
    && forall t :: t in p.tickets ==>
         && q.tickets[t].key == p.tickets[t].key
         && (q.tickets[t].state == p.tickets[t].state || (p.tickets[t].state.Waiting? && q.tickets[t].state.Granted?))
  }

  lemma {:induction false} DrainGrantsOnly(p: Pool)
    requires Core(p)
    ensures GrantsOnly(p, Drain(p))
    decreases p.queued
  {
    hide Core, Wins, Drain;
    if p.inUse < p.capacity && exists key :: Eligible(p, key) {
      var key := SomeWinner(p);
      WinnerWaits(p, key);
      HeadTicket(p, key);
      DrainStep(p, key);
      DrainGrantsOnly(GrantTo(p, key));
    } else {
      DrainEnds(p);
    }
  }

  lemma HeadTicket(p: Pool, key: string)
    requires Core(p) && key in p.keys && p.keys[key].waiters != []
    ensures p.keys[key].waiters[0] in p.tickets && p.tickets[p.keys[key].waiters[0]] == Ticket(key, Waiting)
  {
    HeadWaits(p, key);
  }

  lemma ForgetsNoTicket(p: Pool, key: string)
    requires key in p.keys
    ensures Forget(p, key).tickets == p.tickets
  {
  }

  lemma {:induction false} ReturnMoves(p: Pool, t: nat)
    requires Valid(p) && t in p.tickets && p.tickets[t].state.Granted?
    ensures var q := ReturnSlot(p, t);
            && q.tickets.Keys == p.tickets.Keys
            && q.tickets[t].state.Over?
            && forall u :: u in p.tickets ==> Moves(p.tickets[u], q.tickets[u], u == t)
  {
    hide Core, Active, Quiet, Pruned, Drain, Forget, ActiveBut;
    var key := p.tickets[t].key;
    ReturnKeeps(p, t);
    ForgetKeeps(Return(p, t), key);
    ForgetsNoTicket(Return(p, t), key);
    DrainGrantsOnly(Forget(Return(p, t), key));
  }

  lemma NewNumber(p: Pool)
    requires Core(p)
    ensures p.arrivals + 1 !in p.tickets
  {
    hide Holdings, Aged, Totalled, InTurn;
  }

  lemma FailMoves(p: Pool, key: string)
    requires Core(p) && key in p.keys
    ensures Fail(p, key).tickets.Keys == p.tickets.Keys
    ensures forall t :: t in p.tickets ==> Moves(p.tickets[t], Fail(p, key).tickets[t], false)
  {
    hide Holdings, Aged, Totalled, InTurn;
    FailedQueues(p, key);
  }

  /** What any operation does to the calls. A call that is canceled or released is
      over or failed afterwards, so it neither waits nor holds a slot. */
  lemma {:induction false} TicketMoves(p: Pool, op: Op)
    requires Valid(p) && Allowed(p, op)
    ensures AllMove(p, Apply(p, op), op)
    ensures Apply(p, op).tickets.Keys == p.tickets.Keys + if op.Acquire? then {p.arrivals + 1} else {}
    ensures op.Acquire? ==>
              && p.arrivals + 1 !in p.tickets
              && Apply(p, op).tickets[p.arrivals + 1].key == op.key
              && !Apply(p, op).tickets[p.arrivals + 1].state.Over?
    ensures op.Cancel? ==> Apply(p, op).tickets[op.ticket].state.Over? || Apply(p, op).tickets[op.ticket].state.Failed?
    ensures op.Release? && !p.tickets[op.ticket].state.Waiting? ==> !Apply(p, op).tickets[op.ticket].state.Granted?
  {
    hide Core, Active, Quiet, Pruned, Drain, Forget, ActiveBut;
    match op
    case Acquire(key) =>
      NewNumber(p);
      EnqueueKeeps(p, key);
      DrainGrantsOnly(Enqueue(p, key));
    case Cancel(t) =>
      if p.tickets[t].state.Waiting? {
        LeaveKeeps(p, t);
        ForgetsNoTicket(Leave(p, t), p.tickets[t].key);
      } else if p.tickets[t].state.Granted? {
        ReturnMoves(p, t);
      }
    case Release(t) =>
      if p.tickets[t].state.Granted? {
        ReturnMoves(p, t);
      }
    case FailWaiters(key) =>
      if key in p.keys {
        FailKeeps(p, key);
        FailMoves(p, key);
        ForgetsNoTicket(Fail(p, key), key);
      }
    case SetCapacity(capacity, capFor) =>
      RescaleKeeps(p, AtLeastNone(capacity), capFor);
      DrainGrantsOnly(Rescale(p, AtLeastNone(capacity), capFor));
    case SetCaps(capFor) =>
      RescaleKeeps(p, p.capacity, capFor);
      DrainGrantsOnly(Rescale(p, p.capacity, capFor));
  }

  /** Failing a key's waiters ends every wait of the key and nothing else: no other
      call changes, and no key gains or loses a slot. */
  lemma FailEndsTheWaits(p: Pool, key: string)
    requires Valid(p)
    ensures var q := Apply(p, FailWaiters(key));
            && q.tickets.Keys == p.tickets.Keys
            && (forall t :: t in p.tickets ==>
                  q.tickets[t] == if p.tickets[t] == Ticket(key, Waiting) then Ticket(key, Failed) else p.tickets[t])
            && (forall other :: InUse(q, other) == InUse(p, other))
  {
    hide Holdings, Aged, Totalled, InTurn, Active, Quiet, Pruned, ActiveBut;
    if key in p.keys {
      FailKeeps(p, key);
      FailedQueues(p, key);
      ForgetsNoTicket(Fail(p, key), key);
      ForgetsNoSlot(Fail(p, key), key);
      forall t | t in p.tickets && p.tickets[t] == Ticket(key, Waiting)
        ensures t in p.keys[key].waiters
      {
        assert t in Waiters(p, key);
      }
    }
  }

  lemma ForgetsNoSlot(p: Pool, key: string)
    requires key in p.keys
    ensures forall other :: InUse(Forget(p, key), other) == InUse(p, other)
  {
  }
}
