/** What each step of a locked region keeps. */
module SlotSteps {
  import opened SlotState

  // ----- A grant -----

  lemma {:induction false} GrantKeepsQueues(p: Pool, key: string)
    requires Queues(p) && key in p.keys && p.keys[key].waiters != []
    ensures Queues(GrantTo(p, key))
  {
    hide Waiters, Increasing, GrantTo;
    var q, head := GrantTo(p, key), p.keys[key].waiters[0];
    HeadWaits(p, key);
    GrantedQueues(p, key);
    GrantedTickets(p, key);
    IncreasingRest(Waiters(p, key));
    forall other, t | t in Waiters(q, other)
      ensures t in q.tickets && q.tickets[t] == Ticket(other, Waiting)
    {
      assert t in Waiters(p, other) && t != head;
    }
    forall t | t in q.tickets && q.tickets[t].state.Waiting?
      ensures t in Waiters(q, q.tickets[t].key)
    {
      assert t in Waiters(p, p.tickets[t].key);
    }
  }

  lemma GrantedTickets(p: Pool, key: string)
    requires key in p.keys && p.keys[key].waiters != []
    ensures GrantTo(p, key).tickets == p.tickets[p.keys[key].waiters[0] := Ticket(key, Granted)]
    ensures GrantTo(p, key).arrivals == p.arrivals
  {
  }

  lemma IncreasingRest(s: seq<nat>)
    ensures Increasing(s) && s != [] ==> Increasing(s[1..])
  {
  }

  lemma IncreasingLonger(s: seq<nat>, n: nat)
    requires Increasing(s) && forall t :: t in s ==> t < n
    ensures Increasing(s + [n])
  {
    forall i | 0 <= i < |s|
      ensures s[i] < n
    {
      assert s[i] in s;
    }
  }

  lemma {:induction false} GrantedQueues(p: Pool, key: string)
    requires key in p.keys && p.keys[key].waiters != []
    ensures forall other :: Waiters(GrantTo(p, key), other) == if other == key then Waiters(p, key)[1..] else Waiters(p, other)
    ensures Waiters(p, key) == p.keys[key].waiters && p.keys[key].waiters == [p.keys[key].waiters[0]] + Waiters(p, key)[1..]
  {
  }

  lemma {:induction false} GrantKeepsHoldings(p: Pool, key: string)
    requires Queues(p) && Holdings(p) && key in p.keys && p.keys[key].waiters != []
    ensures Holdings(GrantTo(p, key))
  {
    hide Queues;
    var q := GrantTo(p, key);
    var head := p.keys[key].waiters[0];
    HeadWaits(p, key);
    forall other
      ensures InUse(q, other) == |GrantedTo(q.tickets, other)|
    {
      assert InUse(p, other) == |GrantedTo(p.tickets, other)|;
      assert GrantedTo(q.tickets, other) == GrantedTo(p.tickets, other) + if other == key then {head} else {};
    }
  }

  lemma HeadWaits(p: Pool, key: string)
    requires Queues(p) && key in p.keys && p.keys[key].waiters != []
    ensures var head := p.keys[key].waiters[0];
            head in p.tickets && p.tickets[head] == Ticket(key, Waiting) && head in Waiters(p, key)
    ensures forall t :: t in Waiters(p, key)[1..] ==> p.keys[key].waiters[0] < t
  {
    assert p.keys[key].waiters[0] in Waiters(p, key);
    assert Increasing(Waiters(p, key));
  }

  lemma {:induction false} LastGrantAppend(log: seq<Grant>, g: Grant, key: string)
    ensures LastGrant(log + [g], key) == if g.key == key then |log| + 1 else LastGrant(log, key)
  {
    assert (log + [g])[..|log|] == log;
  }

  /** A positive age is that of a grant to the key, and no later grant is to it. */
  lemma {:induction false} LastGrantIsLast(log: seq<Grant>, key: string)
    ensures LastGrant(log, key) > 0 ==> log[LastGrant(log, key) - 1].key == key
    ensures forall i :: LastGrant(log, key) <= i < |log| ==> log[i].key != key
  {
    if log != [] && log[|log| - 1].key != key {
      LastGrantIsLast(log[..|log| - 1], key);
    }
  }

  lemma {:induction false} GrantKeepsAges(p: Pool, key: string)
    requires Aged(p) && key in p.keys && p.keys[key].waiters != []
    ensures Aged(GrantTo(p, key))
  {
    hide LastGrant;
    var q := GrantTo(p, key);
    forall other
      ensures Retained(q, other) == if other == key then |p.log| + 1 else Retained(p, other)
      ensures LastGrant(q.log, other) == if other == key then |p.log| + 1 else LastGrant(p.log, other)
    {
      LastGrantAppend(p.log, Grant(key, p.keys[key].waiters[0]), other);
    }
  }

  /** What is kept of the grants stays right when neither changes. */
  lemma SameAges(p: Pool, q: Pool)
    requires Aged(p) && q.log == p.log && q.grants == p.grants
    requires forall key :: Retained(q, key) == Retained(p, key)
    requires forall key :: key in q.idleGrants ==> q.idleGrants[key] > 0 && key !in q.keys
    ensures Aged(q)
  {
    hide LastGrant, Retained;
  }

  lemma {:induction false} GrantKeepsTotals(p: Pool, key: string)
    requires Totalled(p) && key in p.keys && p.keys[key].waiters != []
    ensures Totalled(GrantTo(p, key))
  {
    hide Sum;
    var k := p.keys[key];
    SumUpdate(p.keys, false, key, KeyState(k.inUse + 1, p.grants + 1, k.waiters[1..]));
    SumUpdate(p.keys, true, key, KeyState(k.inUse + 1, p.grants + 1, k.waiters[1..]));
  }

  lemma {:induction false} GrantKeepsTurn(p: Pool, key: string)
    requires Queues(p) && InTurn(p) && key in p.keys && p.keys[key].waiters != []
    ensures InTurn(GrantTo(p, key))
  {
    hide Queues;
    var q := GrantTo(p, key);
    HeadWaits(p, key);
    GrantedQueues(p, key);
    forall i, t | 0 <= i < |q.log| && t in Waiters(q, q.log[i].key)
      ensures q.log[i].ticket < t
    {
      if i < |p.log| {
        assert t in Waiters(p, q.log[i].key);
      }
    }
  }

  lemma GrantKeeps(p: Pool, key: string)
    requires Core(p) && key in p.keys && p.keys[key].waiters != []
    ensures Core(GrantTo(p, key))
    ensures Active(p) ==> Active(GrantTo(p, key))
  {
    hide Queues, Holdings, Aged, Totalled, InTurn;
    GrantKeepsQueues(p, key);
    GrantKeepsHoldings(p, key);
    GrantKeepsAges(p, key);
    GrantKeepsTotals(p, key);
    GrantKeepsTurn(p, key);
    if Active(p) {
      NotNegative(p, key);
    }
  }

  lemma NotNegative(p: Pool, key: string)
    requires Core(p) && key in p.keys
    ensures p.keys[key].inUse >= 0
  {
    hide GrantedTo, Aged, Totalled, InTurn, Queues;
    assert InUse(p, key) >= 0;
  }

  // ----- Forgetting -----

  /** Pruning changes idle ages only. */
  lemma {:induction false} PruneKeeps(p: Pool)
    requires Core(p)
    ensures Core(Prune(p)) && Pruned(Prune(p))
    ensures Active(p) ==> Active(Prune(p))
    ensures Quiet(p) ==> Quiet(Prune(p))
  {
    hide Queues, Holdings, Aged, Totalled, InTurn, Quiet, Eligible, Limit;
    var q := Prune(p);
    SameQueues(p, q);
    PruneKeepsAges(p);
  }

  /** Idle ages matter to no queue and no sum. */
  lemma {:induction false} SameQueues(p: Pool, q: Pool)
    requires q == p.(idleGrants := q.idleGrants)
    ensures Queues(p) ==> Queues(q)
    ensures Holdings(p) ==> Holdings(q)
    ensures Totalled(p) ==> Totalled(q)
    ensures InTurn(p) ==> InTurn(q)
    ensures Quiet(p) ==> Quiet(q)
  {
    hide GrantedTo, Sum, Increasing;
    forall key
      ensures Eligible(q, key) == Eligible(p, key)
      ensures InUse(q, key) == InUse(p, key)
      ensures Waiters(q, key) == Waiters(p, key)
    {
    }
  }

  /** A dropped age is older than every age that is kept. */
  lemma {:induction false} PruneKeepsAges(p: Pool)
    requires Aged(p)
    ensures Aged(Prune(p)) && Pruned(Prune(p))
  {
    hide LastGrant;
    var q := Prune(p);
    forall forgotten, key | Retained(q, forgotten) == 0 && Retained(q, key) > 0
      ensures LastGrant(q.log, forgotten) < Retained(q, key)
    {
      assert Retained(p, key) == Retained(q, key);
      if Retained(p, forgotten) > 0 {
        DroppedIsOlder(p, forgotten, key);
      }
    }
    forall age
      ensures Counts(p, age) ==> Counts(q, age)
    {
      if Counts(p, age) {
        var key :| key in p.keys && p.keys[key].lastGrant <= age;
        assert key in q.keys && q.keys[key].lastGrant <= age;
      }
    }
  }

  lemma DroppedIsOlder(p: Pool, dropped: string, key: string)
    requires Aged(p) && Retained(p, dropped) > 0 && Retained(Prune(p), dropped) == 0 && Retained(Prune(p), key) > 0
    ensures LastGrant(p.log, dropped) == Retained(p, dropped) < Retained(Prune(p), key)
  {
    hide LastGrant;
    assert dropped in p.idleGrants && !Counts(p, p.idleGrants[dropped]);
    if key !in p.keys {
      assert Counts(p, p.idleGrants[key]);
      var active :| active in p.keys && p.keys[active].lastGrant <= p.idleGrants[key];
    }
  }

  /** All keys but one use a slot or have waiters. */
  ghost predicate ActiveBut(p: Pool, key: string) {
    forall other :: other in p.keys && other != key ==> !Idle(p.keys[other])
  }

  lemma {:induction false} ForgetKeeps(p: Pool, key: string)
    requires Core(p) && key in p.keys && ActiveBut(p, key)
    ensures Core(Forget(p, key)) && Active(Forget(p, key))
    ensures Pruned(p) ==> Pruned(Forget(p, key))
    ensures Quiet(p) ==> Quiet(Forget(p, key))
  {
    hide Queues, Holdings, Aged, Totalled, InTurn, Prune, Quiet;
    var k := p.keys[key];
    if Idle(k) {
      var q := p.(keys := p.keys - {key}, idleGrants := if k.lastGrant != 0 then p.idleGrants[key := k.lastGrant] else p.idleGrants);
      DropKeepsTickets(p, key, q);
      DropKeepsAges(p, key, q);
      DropKeepsTotals(p, key, q);
      DropKeepsTurn(p, key, q);
      DropKeepsQuiet(p, key, q);
      PruneKeeps(q);
    }
  }

  ghost predicate Drops(p: Pool, key: string, q: Pool) {
    && key in p.keys && Idle(p.keys[key])
    && var age := p.keys[key].lastGrant;
       q == p.(keys := p.keys - {key}, idleGrants := if age != 0 then p.idleGrants[key := age] else p.idleGrants)
  }

  lemma {:induction false} DropKeepsTickets(p: Pool, key: string, q: Pool)
    requires Drops(p, key, q) && Queues(p) && Holdings(p)
    ensures Queues(q) && Holdings(q)
  {
    hide GrantedTo, Increasing;
    forall other
      ensures InUse(q, other) == InUse(p, other)
      ensures Waiters(q, other) == Waiters(p, other)
    {
    }
  }

  lemma {:induction false} DropKeepsAges(p: Pool, key: string, q: Pool)
    requires Drops(p, key, q) && Aged(p)
    ensures Aged(q)
  {
    hide LastGrant, ForgottenAreOlder;
    forall other
      ensures Retained(q, other) == Retained(p, other)
    {
    }
    SameAges(p, q);
  }

  lemma {:induction false} DropKeepsTotals(p: Pool, key: string, q: Pool)
    requires Drops(p, key, q) && Totalled(p)
    ensures Totalled(q)
  {
    hide Sum;
    SumWithout(p.keys, false, key);
    SumWithout(p.keys, true, key);
  }

  lemma {:induction false} DropKeepsTurn(p: Pool, key: string, q: Pool)
    requires Drops(p, key, q) && InTurn(p)
    ensures InTurn(q)
  {
    forall other
      ensures Waiters(q, other) == Waiters(p, other)
    {
    }
  }

  lemma {:induction false} DropKeepsQuiet(p: Pool, key: string, q: Pool)
    requires Drops(p, key, q)
    ensures Quiet(p) ==> Quiet(q)
  {
    forall other
      ensures Eligible(q, other) ==> Eligible(p, other)
    {
    }
  }

  // ----- A new waiter -----

  lemma {:induction false} EnqueuedQueues(p: Pool, key: string)
    requires Queues(p)
    ensures p.arrivals + 1 !in p.tickets
    ensures forall other :: Waiters(Enqueue(p, key), other) == if other == key then Waiters(p, key) + [p.arrivals + 1] else Waiters(p, other)
    ensures forall t :: t in Waiters(p, key) ==> t < p.arrivals + 1
  {
    forall t | t in Waiters(p, key)
      ensures t < p.arrivals + 1
    {
      assert t in p.tickets;
    }
  }

  lemma {:induction false} EnqueueKeepsQueues(p: Pool, key: string)
    requires Queues(p)
    ensures Queues(Enqueue(p, key))
  {
    hide Waiters, Increasing, Enqueue;
    var q, n := Enqueue(p, key), p.arrivals + 1;
    EnqueuedQueues(p, key);
    IncreasingLonger(Waiters(p, key), n);
    EnqueuedTickets(p, key);
    forall other, t | t in Waiters(q, other)
      ensures t in q.tickets && q.tickets[t] == Ticket(other, Waiting)
    {
      assert t == n || t in Waiters(p, other);
    }
  }

  lemma EnqueuedTickets(p: Pool, key: string)
    ensures Enqueue(p, key).tickets == p.tickets[p.arrivals + 1 := Ticket(key, Waiting)]
    ensures Enqueue(p, key).arrivals == p.arrivals + 1
  {
  }

  lemma {:induction false} EnqueueKeepsHoldings(p: Pool, key: string)
    requires Holdings(p) && p.arrivals + 1 !in p.tickets
    ensures Holdings(Enqueue(p, key))
  {
    var q := Enqueue(p, key);
    forall other
      ensures InUse(q, other) == |GrantedTo(q.tickets, other)|
    {
      assert InUse(p, other) == |GrantedTo(p.tickets, other)|;
      assert GrantedTo(q.tickets, other) == GrantedTo(p.tickets, other);
    }
  }

  lemma {:induction false} EnqueueKeepsAges(p: Pool, key: string)
    requires Aged(p)
    ensures Aged(Enqueue(p, key))
  {
    hide LastGrant, ForgottenAreOlder;
    forall other
      ensures Retained(Enqueue(p, key), other) == Retained(p, other)
    {
    }
    SameAges(p, Enqueue(p, key));
  }

  lemma {:induction false} EnqueueKeepsTotals(p: Pool, key: string)
    requires Totalled(p)
    ensures Totalled(Enqueue(p, key))
  {
    hide Sum;
    var k := Enqueue(p, key).keys[key];
    SumUpdate(p.keys, false, key, k);
    SumUpdate(p.keys, true, key, k);
  }

  lemma {:induction false} EnqueueKeepsTurn(p: Pool, key: string)
    requires Queues(p) && InTurn(p)
    ensures InTurn(Enqueue(p, key))
  {
    EnqueuedQueues(p, key);
    TicketsArrived(p);
  }

  lemma TicketsArrived(p: Pool)
    requires Queues(p)
    ensures forall t :: t in p.tickets ==> t <= p.arrivals
  {
  }

  lemma EnqueueKeeps(p: Pool, key: string)
    requires Core(p) && Active(p)
    ensures Core(Enqueue(p, key)) && Active(Enqueue(p, key))
  {
    hide Queues, Holdings, Aged, Totalled, InTurn;
    EnqueuedQueues(p, key);
    EnqueueKeepsQueues(p, key);
    EnqueueKeepsHoldings(p, key);
    EnqueueKeepsAges(p, key);
    EnqueueKeepsTotals(p, key);
    EnqueueKeepsTurn(p, key);
  }

  // ----- A slot that goes back -----

  lemma {:induction false} GrantedHasKey(p: Pool, t: nat)
    requires Holdings(p) && t in p.tickets && p.tickets[t].state.Granted?
    ensures p.tickets[t].key in p.keys && InUse(p, p.tickets[t].key) > 0
  {
    var key := p.tickets[t].key;
    assert t in GrantedTo(p.tickets, key);
    assert InUse(p, key) == |GrantedTo(p.tickets, key)|;
  }

  lemma {:induction false} ReturnKeepsQueues(p: Pool, t: nat)
    requires Queues(p) && t in p.tickets && p.tickets[t].state.Granted? && p.tickets[t].key in p.keys
    ensures Queues(Return(p, t))
  {
    hide Increasing;
    forall other
      ensures Waiters(Return(p, t), other) == Waiters(p, other)
    {
    }
  }

  lemma {:induction false} ReturnKeepsHoldings(p: Pool, t: nat)
    requires Holdings(p) && t in p.tickets && p.tickets[t].state.Granted? && p.tickets[t].key in p.keys
    ensures Holdings(Return(p, t))
  {
    var q, key := Return(p, t), p.tickets[t].key;
    forall other
      ensures InUse(q, other) == |GrantedTo(q.tickets, other)|
    {
      assert InUse(p, other) == |GrantedTo(p.tickets, other)|;
      assert GrantedTo(q.tickets, other) == GrantedTo(p.tickets, other) - {t};
      assert other == key <==> t in GrantedTo(p.tickets, other);
    }
  }

  lemma {:induction false} ReturnKeepsAges(p: Pool, t: nat)
    requires Aged(p) && t in p.tickets && p.tickets[t].key in p.keys
    ensures Aged(Return(p, t))
  {
    hide LastGrant, ForgottenAreOlder;
    forall other
      ensures Retained(Return(p, t), other) == Retained(p, other)
    {
    }
    SameAges(p, Return(p, t));
  }

  lemma {:induction false} ReturnKeepsTotals(p: Pool, t: nat)
    requires Totalled(p) && t in p.tickets && p.tickets[t].key in p.keys
    ensures Totalled(Return(p, t))
  {
    hide Sum;
    var key := p.tickets[t].key;
    SumUpdate(p.keys, false, key, Return(p, t).keys[key]);
    SumUpdate(p.keys, true, key, Return(p, t).keys[key]);
  }

  lemma {:induction false} ReturnKeepsTurn(p: Pool, t: nat)
    requires InTurn(p) && t in p.tickets && p.tickets[t].key in p.keys
    ensures InTurn(Return(p, t))
  {
    forall other
      ensures Waiters(Return(p, t), other) == Waiters(p, other)
    {
    }
  }

  lemma ReturnKeeps(p: Pool, t: nat)
    requires Core(p) && Active(p) && t in p.tickets && p.tickets[t].state.Granted?
    ensures p.tickets[t].key in p.keys
    ensures Core(Return(p, t)) && ActiveBut(Return(p, t), p.tickets[t].key)
  {
    hide Queues, Holdings, Aged, Totalled, InTurn;
    GrantedHasKey(p, t);
    ReturnKeepsQueues(p, t);
    ReturnKeepsHoldings(p, t);
    ReturnKeepsAges(p, t);
    ReturnKeepsTotals(p, t);
    ReturnKeepsTurn(p, t);
  }

  // ----- A waiter that leaves -----

  lemma {:induction false} WithoutIs(waiters: seq<nat>, t: nat)
    requires Increasing(waiters) && t in waiters
    ensures var rest := Without(waiters, t);
            && Increasing(rest) && |rest| == |waiters| - 1
            && forall x :: x in rest <==> x in waiters && x != t
  {
    if waiters[0] != t {
      assert waiters == [waiters[0]] + waiters[1..];
      assert Increasing(waiters[1..]);
      WithoutIs(waiters[1..], t);
      var rest := Without(waiters[1..], t);
      assert Without(waiters, t) == [waiters[0]] + rest;
      forall i | 0 <= i < |rest|
        ensures waiters[0] < rest[i]
      {
        assert rest[i] in rest;
      }
    } else {
      forall x
        ensures x in waiters[1..] <==> x in waiters && x != t
      {
        assert waiters == [waiters[0]] + waiters[1..];
      }
    }
  }

  lemma {:induction false} LeftQueues(p: Pool, t: nat)
    requires Queues(p) && t in p.tickets && p.tickets[t].state.Waiting?
    ensures p.tickets[t].key in p.keys
    ensures forall other, x :: x in Waiters(Leave(p, t), other) <==> x in Waiters(p, other) && x != t
    ensures forall other :: Increasing(Waiters(Leave(p, t), other))
    ensures |Waiters(Leave(p, t), p.tickets[t].key)| == |Waiters(p, p.tickets[t].key)| - 1
  {
    var key := p.tickets[t].key;
    assert t in Waiters(p, key) && Increasing(Waiters(p, key));
    WithoutIs(p.keys[key].waiters, t);
    forall other
      ensures Increasing(Waiters(Leave(p, t), other))
    {
      assert Increasing(Waiters(p, other));
    }
  }

  lemma {:induction false} LeaveKeepsTickets(p: Pool, t: nat)
    requires Queues(p) && Holdings(p) && t in p.tickets && p.tickets[t].state.Waiting?
    ensures p.tickets[t].key in p.keys && Queues(Leave(p, t)) && Holdings(Leave(p, t))
  {
    LeftQueues(p, t);
    LeaveKeepsQueues(p, t);
    LeaveKeepsHoldings(p, t);
  }

  lemma {:induction false} LeaveKeepsQueues(p: Pool, t: nat)
    requires Queues(p) && t in p.tickets && p.tickets[t].state.Waiting? && p.tickets[t].key in p.keys
    ensures Queues(Leave(p, t))
  {
    hide Increasing, Waiters, Without;
    LeftQueues(p, t);
  }

  lemma {:induction false} LeaveKeepsHoldings(p: Pool, t: nat)
    requires Holdings(p) && t in p.tickets && p.tickets[t].state.Waiting? && p.tickets[t].key in p.keys
    ensures Holdings(Leave(p, t))
  {
    hide Without;
    var q := Leave(p, t);
    forall other
      ensures InUse(q, other) == |GrantedTo(q.tickets, other)|
    {
      assert InUse(p, other) == |GrantedTo(p.tickets, other)|;
      assert GrantedTo(q.tickets, other) == GrantedTo(p.tickets, other);
    }
  }

  lemma {:induction false} LeaveKeepsAges(p: Pool, t: nat)
    requires Aged(p) && t in p.tickets && p.tickets[t].key in p.keys
    ensures Aged(Leave(p, t))
  {
    hide LastGrant, ForgottenAreOlder;
    forall other
      ensures Retained(Leave(p, t), other) == Retained(p, other)
    {
    }
    SameAges(p, Leave(p, t));
  }

  lemma {:induction false} LeaveKeepsTotals(p: Pool, t: nat)
    requires Queues(p) && Totalled(p) && t in p.tickets && p.tickets[t].state.Waiting? && p.tickets[t].key in p.keys
    ensures Totalled(Leave(p, t))
  {
    hide Sum, Queues;
    var key := p.tickets[t].key;
    LeftQueues(p, t);
    SumUpdate(p.keys, false, key, Leave(p, t).keys[key]);
    SumUpdate(p.keys, true, key, Leave(p, t).keys[key]);
  }

  lemma {:induction false} LeaveKeepsTurn(p: Pool, t: nat)
    requires Queues(p) && InTurn(p) && t in p.tickets && p.tickets[t].state.Waiting? && p.tickets[t].key in p.keys
    ensures InTurn(Leave(p, t))
  {
    hide Queues;
    LeftQueues(p, t);
  }

  lemma LeaveKeeps(p: Pool, t: nat)
    requires Core(p) && Active(p) && t in p.tickets && p.tickets[t].state.Waiting?
    ensures p.tickets[t].key in p.keys
    ensures Core(Leave(p, t)) && ActiveBut(Leave(p, t), p.tickets[t].key)
    ensures Quiet(p) ==> Quiet(Leave(p, t))
    ensures Pruned(p) ==> Pruned(Leave(p, t))
  {
    hide Queues, Holdings, Aged, Totalled, InTurn;
    LeaveKeepsTickets(p, t);
    LeaveKeepsAges(p, t);
    LeaveKeepsTotals(p, t);
    LeaveKeepsTurn(p, t);
    LeaveFreesNothing(p, t);
  }

  lemma {:induction false} LeaveFreesNothing(p: Pool, t: nat)
    requires t in p.tickets && p.tickets[t].key in p.keys
    ensures Quiet(p) ==> Quiet(Leave(p, t))
    ensures Pruned(p) ==> Pruned(Leave(p, t))
  {
    var q := Leave(p, t);
    forall key
      ensures Eligible(q, key) ==> Eligible(p, key)
    {
    }
    forall age
      ensures Counts(p, age) ==> Counts(q, age)
    {
      if Counts(p, age) {
        var key :| key in p.keys && p.keys[key].lastGrant <= age;
        assert key in q.keys && q.keys[key].lastGrant <= age;
      }
    }
  }

  // ----- Waiters that fail -----

  lemma {:induction false} FailKeepsTickets(p: Pool, key: string)
    requires Queues(p) && Holdings(p) && key in p.keys
    ensures Queues(Fail(p, key)) && Holdings(Fail(p, key))
  {
    hide Increasing;
    var q := Fail(p, key);
    FailedQueues(p, key);
    forall other
      ensures InUse(q, other) == |GrantedTo(q.tickets, other)|
    {
      assert InUse(p, other) == |GrantedTo(p.tickets, other)|;
      assert GrantedTo(q.tickets, other) == GrantedTo(p.tickets, other);
    }
  }

  lemma {:induction false} FailedQueues(p: Pool, key: string)
    requires Queues(p) && key in p.keys
    ensures forall other :: Waiters(Fail(p, key), other) == if other == key then [] else Waiters(p, other)
    ensures forall t :: t in p.keys[key].waiters ==> t in Waiters(p, key) && t in p.tickets && p.tickets[t] == Ticket(key, Waiting)
    ensures Increasing([])
  {
    forall t | t in p.keys[key].waiters
      ensures t in Waiters(p, key)
    {
    }
  }

  lemma {:induction false} FailKeepsTurn(p: Pool, key: string)
    requires Queues(p) && InTurn(p) && key in p.keys
    ensures InTurn(Fail(p, key))
  {
    hide Queues;
    FailedQueues(p, key);
  }

  lemma {:induction false} FailKeepsRest(p: Pool, key: string)
    requires Aged(p) && Totalled(p) && key in p.keys
    ensures Aged(Fail(p, key)) && Totalled(Fail(p, key))
    ensures Quiet(p) ==> Quiet(Fail(p, key))
    ensures Pruned(p) ==> Pruned(Fail(p, key))
  {
    hide Sum, LastGrant, ForgottenAreOlder;
    var q := Fail(p, key);
    SumUpdate(p.keys, false, key, q.keys[key]);
    SumUpdate(p.keys, true, key, q.keys[key]);
    forall other
      ensures Retained(q, other) == Retained(p, other)
    {
    }
    SameAges(p, q);
    forall age
      ensures Counts(p, age) ==> Counts(q, age)
    {
      if Counts(p, age) {
        var k :| k in p.keys && p.keys[k].lastGrant <= age;
        assert k in q.keys && q.keys[k].lastGrant <= age;
      }
    }
    forall other
      ensures Eligible(q, other) ==> Eligible(p, other)
    {
    }
  }

  lemma FailKeeps(p: Pool, key: string)
    requires Core(p) && Active(p) && key in p.keys
    ensures Core(Fail(p, key)) && ActiveBut(Fail(p, key), key)
    ensures Quiet(p) ==> Quiet(Fail(p, key))
    ensures Pruned(p) ==> Pruned(Fail(p, key))
  {
    hide Queues, Holdings, Aged, Totalled, InTurn, Quiet, Pruned;
    FailKeepsTickets(p, key);
    FailKeepsTurn(p, key);
    FailKeepsRest(p, key);
  }
}
