/** The scan slot pool, one method for each of its locked regions. */
module SlotPool {
  import opened SlotState
  import opened SlotSteps
  import opened SlotDispatch

  class SlotPool {
    var capacity: int
    var capFor: string -> int
    var inUse: int
    var queued: int
    var grants: nat
    var arrivals: nat
    var keys: map<string, KeyState>
    var idleGrants: map<string, nat>
    /** The Acquire calls, by arrival. */
    var tickets: map<nat, Ticket>
    ghost var log: seq<Grant>

    ghost function State(): Pool
      reads this
    {
      Pool(capacity, capFor, inUse, queued, grants, arrivals, keys, idleGrants, tickets, log)
    }

    constructor (capacity: int, capFor: string -> int)
      ensures State() == Fresh(capacity, capFor) && Valid(State())
    {
      this.capacity := if capacity > 0 then capacity else 0;
      this.capFor := capFor;
      inUse, queued, grants, arrivals := 0, 0, 0, 0;
      keys, idleGrants, tickets, log := map[], map[], map[], [];
      new;
      FreshIsValid(capacity, capFor);
    }

    /** The least grant age of the active keys. */
    method OldestActive() returns (oldest: int)
      requires keys != map[]
      ensures exists key :: key in keys && keys[key].lastGrant == oldest
      ensures forall key :: key in keys ==> oldest <= keys[key].lastGrant
    {
      oldest := -1;
      var rest := keys.Keys;
      while rest != {}
        invariant rest <= keys.Keys
        invariant oldest < 0 ==> rest == keys.Keys
        invariant oldest >= 0 ==> exists key :: key in keys && keys[key].lastGrant == oldest
        invariant forall key :: key in keys && key !in rest ==> 0 <= oldest <= keys[key].lastGrant
        decreases |rest|
      {
        var key :| key in rest;
        rest := rest - {key};
        if oldest < 0 || keys[key].lastGrant < oldest {
          oldest := keys[key].lastGrant;
        }
      }
      assert keys.Keys != {};
    }

    /** Forgets an idle key's age when all active keys were granted later. */
    method PruneIdleGrants()
      modifies this`idleGrants
      ensures State() == Prune(old(State()))
    {
      hide Counts;
      ghost var before := State();
      if idleGrants == map[] {
        return;
      }
      if keys == map[] {
        NoneActive(before);
        idleGrants := map[];
        return;
      }
      var oldestActive := OldestActive();
      OldestDecides(before, oldestActive);
      if oldestActive == 0 {
        return;
      }
      var rest := idleGrants.Keys;
      while rest != {}
        invariant rest <= idleGrants.Keys <= before.idleGrants.Keys
        invariant forall key :: key in idleGrants ==> idleGrants[key] == before.idleGrants[key]
        invariant forall key :: key in before.idleGrants ==> (key in idleGrants <==> key in rest || before.idleGrants[key] >= oldestActive)
        decreases |rest|
        modifies this`idleGrants
      {
        var key :| key in rest;
        if idleGrants[key] < oldestActive {
          idleGrants := idleGrants - {key};
        }
        rest := rest - {key};
      }
    }

    /** Drops a key that uses no slot and has no waiters. */
    method ForgetIdle(key: string)
      requires key in keys
      modifies this`keys, this`idleGrants
      ensures State() == Forget(old(State()), key)
    {
      var k := keys[key];
      if k.inUse == 0 && |k.waiters| == 0 {
        keys := keys - {key};
        if k.lastGrant != 0 {
          idleGrants := idleGrants[key := k.lastGrant];
        }
        PruneIdleGrants();
      }
    }

    method LimitOf(key: string) returns (limit: int)
      ensures limit == Limit(State(), key)
    {
      var keyCap := capFor(key);
      limit := if 0 < keyCap < capacity then keyCap else capacity;
    }

    /** The eligible key whose turn it is, in whatever order the keys are read. */
    method NextKey() returns (next: string, found: bool)
      requires Queues(State())
      ensures if found then Wins(State(), next) else forall key :: !Eligible(State(), key)
    {
      found, next := false, "";
      var rest := keys.Keys;
      while rest != {}
        invariant rest <= keys.Keys
        invariant found ==> Eligible(State(), next) && next !in rest
        invariant forall key :: Eligible(State(), key) && key !in rest ==>
                    found && (key == next || Before(keys[next], keys[key]))
        decreases |rest|
      {
        var key :| key in rest;
        var k := keys[key];
        var limit := LimitOf(key);
        if |k.waiters| > 0 && k.inUse < limit {
          if found {
            HeadsDiffer(State(), key, next);
          }
          if !found || k.lastGrant < keys[next].lastGrant || (k.lastGrant == keys[next].lastGrant && k.waiters[0] < keys[next].waiters[0]) {
            found, next := true, key;
          }
        }
        rest := rest - {key};
      }
    }

    /** The head waiter of a key gets a slot. */
    method GrantHead(key: string)
      requires key in keys && keys[key].waiters != []
      modifies this
      ensures State() == GrantTo(old(State()), key)
    {
      var head := keys[key].waiters[0];
      queued := queued - 1;
      inUse := inUse + 1;
      grants := grants + 1;
      keys := keys[key := KeyState(keys[key].inUse + 1, grants, keys[key].waiters[1..])];
      tickets := tickets[head := Ticket(key, Granted)];
      log := log + [Grant(key, head)];
    }

    /** Grants until no slot is free or no waiter may take one, then prunes. */
    method DispatchLocked()
      requires Core(State())
      modifies this
      ensures State() == Dispatch(old(State()))
    {
      hide Core, Wins, Drain, Eligible, Prune, GrantTo;
      while inUse < capacity
        invariant Core(State()) && Drain(State()) == Drain(old(State()))
        decreases queued
      {
        CoreQueues(State());
        var next, found := NextKey();
        if !found {
          break;
        }
        DrainStep(State(), next);
        WinnerWaits(State(), next);
        GrantHead(next);
      }
      DrainEnds(State());
      PruneIdleGrants();
    }

    /** A new waiter joins the end of its key's queue. */
    method PushWaiter(key: string) returns (t: nat)
      modifies this
      ensures State() == Enqueue(old(State()), key) && t == old(arrivals) + 1
    {
      var k := if key in keys then keys[key] else KeyState(0, if key in idleGrants then idleGrants[key] else 0, []);
      if key !in keys {
        idleGrants := idleGrants - {key};
      }
      arrivals := arrivals + 1;
      t := arrivals;
      keys := keys[key := k.(waiters := k.waiters + [t])];
      tickets := tickets[t := Ticket(key, Waiting)];
      queued := queued + 1;
    }

    /** The locked start of an Acquire call: it takes its place in the queue, and
        is queued when the dispatch does not grant it a slot at once. */
    method Enter(key: string) returns (t: nat, stays: bool)
      requires Valid(State())
      modifies this
      ensures Valid(State()) && State() == Apply(old(State()), Acquire(key))
      ensures t == old(arrivals) + 1 && t in tickets && stays == tickets[t].state.Waiting?
    {
      hide Core, Active, Quiet, Pruned, Dispatch, Enqueue;
      ghost var before := State();
      ApplyKeeps(before, Acquire(key));
      EnqueueKeeps(before, key);
      NewTicket(before, key);
      t := PushWaiter(key);
      DispatchLocked();
      stays := tickets[t].state.Waiting?;
    }

    /** Gives back a slot of a ticket, whose call is over. */
    method ReleaseLocked(t: nat)
      requires Valid(State()) && t in tickets && tickets[t].state.Granted?
      modifies this
      ensures Valid(State()) && State() == ReturnSlot(old(State()), t)
    {
      hide Core, Active, Quiet, Pruned, Dispatch, Forget, ActiveBut;
      ghost var before := State();
      ReturnSlotKeeps(before, t);
      ReturnKeeps(before, t);
      var key := tickets[t].key;
      ForgetKeeps(Return(before, t), key);
      tickets := tickets[t := Ticket(key, Over)];
      keys := keys[key := keys[key].(inUse := keys[key].inUse - 1)];
      inUse := inUse - 1;
      assert State() == Return(before, t);
      ForgetIdle(key);
      DispatchLocked();
    }

    /** The locked end of an Acquire call whose context ended: it leaves the queue, or
        gives back the slot that a racing grant gave it. */
    method CancelLocked(t: nat)
      requires Valid(State()) && t in tickets
      modifies this
      ensures Valid(State()) && State() == Apply(old(State()), Cancel(t))
    {
      hide Core, Active, Quiet, Pruned, Dispatch, Forget, ActiveBut, Without;
      ghost var before := State();
      ApplyKeeps(before, Cancel(t));
      match tickets[t].state
      case Waiting =>
        LeaveKeeps(before, t);
        var key := tickets[t].key;
        keys := keys[key := keys[key].(waiters := Without(keys[key].waiters, t))];
        tickets := tickets[t := Ticket(key, Over)];
        queued := queued - 1;
        assert State() == Leave(before, t);
        ForgetIdle(key);
      case Granted =>
        ReleaseLocked(t);
      case _ =>
    }

    /** The release function of a granted call. It gives the slot back once. */
    method ReleaseOnce(t: nat)
      requires Valid(State()) && t in tickets
      modifies this
      ensures Valid(State()) && State() == Apply(old(State()), Release(t))
    {
      hide Core, Active, Quiet, Pruned, Dispatch, Forget, ActiveBut;
      if tickets[t].state.Granted? {
        ReleaseLocked(t);
      }
    }

    /** Every queued waiter of a key fails; its slots are unaffected. */
    method FailAll(key: string)
      requires Valid(State())
      modifies this
      ensures Valid(State()) && State() == Apply(old(State()), FailWaiters(key))
    {
      hide Core, Active, Quiet, Pruned, Dispatch, Forget, ActiveBut, SomeFailed, Fail;
      ghost var before := State();
      ApplyKeeps(before, FailWaiters(key));
      if key !in keys {
        return;
      }
      var waiters := keys[key].waiters;
      NoneFailed(before, key);
      for i := 0 to |waiters|
        invariant State() == SomeFailed(before, key, i)
      {
        OneFailed(before, key, i);
        keys := keys[key := keys[key].(waiters := keys[key].waiters[1..])];
        queued := queued - 1;
        tickets := tickets[waiters[i] := Ticket(key, Failed)];
      }
      AllFailed(before, key);
      ForgetIdle(key);
    }

    /** Replaces the capacity and the caps, and grants what they now allow. */
    method Resize(capacity: int, capFor: string -> int)
      requires Valid(State())
      modifies this
      ensures Valid(State()) && State() == Apply(old(State()), SetCapacity(capacity, capFor))
    {
      hide Core, Active, Quiet, Pruned, Dispatch;
      ghost var before := State();
      ApplyKeeps(before, SetCapacity(capacity, capFor));
      RescaleKeeps(before, AtLeastNone(capacity), capFor);
      this.capacity := if capacity > 0 then capacity else 0;
      this.capFor := capFor;
      DispatchLocked();
    }

    method Recap(capFor: string -> int)
      requires Valid(State())
      modifies this
      ensures Valid(State()) && State() == Apply(old(State()), SetCaps(capFor))
    {
      hide Core, Active, Quiet, Pruned, Dispatch;
      ghost var before := State();
      ApplyKeeps(before, SetCaps(capFor));
      RescaleKeeps(before, capacity, capFor);
      this.capFor := capFor;
      DispatchLocked();
    }
  }

  lemma NoneActive(p: Pool)
    requires p.keys == map[]
    ensures Prune(p).idleGrants == map[]
  {
  }

  lemma CoreQueues(p: Pool)
    requires Core(p)
    ensures Queues(p)
  {
  }

  /** The oldest active age decides which idle ages count. */
  lemma OldestDecides(p: Pool, oldest: int)
    requires exists key :: key in p.keys && p.keys[key].lastGrant == oldest
    requires forall key :: key in p.keys ==> oldest <= p.keys[key].lastGrant
    ensures forall age: nat :: Counts(p, age) <==> age >= oldest
  {
    forall age: nat
      ensures Counts(p, age) <==> age >= oldest
    {
      var key :| key in p.keys && p.keys[key].lastGrant == oldest;
    }
  }

  lemma NewTicket(p: Pool, key: string)
    requires Valid(p)
    ensures p.arrivals + 1 in Apply(p, Acquire(key)).tickets
  {
    hide Core, Active, Quiet, Pruned, Drain;
    EnqueueKeeps(p, key);
    DrainKeepsCalls(Enqueue(p, key));
  }

  /** The first n waiters of a key have failed. */
  ghost function SomeFailed(p: Pool, key: string, n: nat): Pool
    requires key in p.keys && n <= |p.keys[key].waiters|
  {
    var waiters := p.keys[key].waiters;
    p.(queued := p.queued - n,
       keys := p.keys[key := p.keys[key].(waiters := waiters[n..])],
       tickets := map t | t in p.tickets :: if t in waiters[..n] then Ticket(key, Failed) else p.tickets[t])
  }

  lemma NoneFailed(p: Pool, key: string)
    requires key in p.keys
    ensures SomeFailed(p, key, 0) == p
  {
    assert p.keys[key := p.keys[key]] == p.keys;
  }

  lemma OneFailed(p: Pool, key: string, n: nat)
    requires Core(p) && key in p.keys && n < |p.keys[key].waiters|
    ensures var q, t := SomeFailed(p, key, n), p.keys[key].waiters[n];
            && key in q.keys && q.keys[key].waiters != []
            && SomeFailed(p, key, n + 1)
               == q.(queued := q.queued - 1, keys := q.keys[key := q.keys[key].(waiters := q.keys[key].waiters[1..])],
                     tickets := q.tickets[t := Ticket(key, Failed)])
  {
    hide Holdings, Aged, Totalled, InTurn;
    var waiters := p.keys[key].waiters;
    assert waiters[n] in Waiters(p, key);
    assert waiters[..n + 1] == waiters[..n] + [waiters[n]];
    assert waiters[n..][1..] == waiters[n + 1..];
  }

  lemma AllFailed(p: Pool, key: string)
    requires key in p.keys
    ensures SomeFailed(p, key, |p.keys[key].waiters|) == Fail(p, key) && key in Fail(p, key).keys
  {
    var waiters := p.keys[key].waiters;
    assert waiters[..|waiters|] == waiters && waiters[|waiters|..] == [];
  }
}
