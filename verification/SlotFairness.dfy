/** Bounded overtaking: while a key waits below its limit, every other key is granted
    at most once before it. */
module SlotFairness {
  import opened SlotState
  import opened SlotSteps
  import opened SlotDispatch
  import opened SlotTickets

  ghost predicate GrantedSince(log: seq<Grant>, key: string, base: nat) {
    exists m :: base <= m < |log| && log[m].key == key
  }

  /** No key is granted twice after `base` unless the waiting key is granted before
      the second time. */
  ghost predicate Fair(log: seq<Grant>, waiting: string, base: nat) {
    forall i, j :: base <= i < j < |log| && log[i].key == log[j].key ==> GrantedSince(log[..j], waiting, base)
  }

  /** A key's grant age, also while it is idle, is greater than an active key's, so
      it cannot overtake that key and its age is not dropped. */
  ghost predicate Past(p: Pool, waiting: string, key: string) {
    && waiting in p.keys
    && if key in p.keys then p.keys[key].lastGrant > p.keys[waiting].lastGrant
       else key in p.idleGrants && p.idleGrants[key] > p.keys[waiting].lastGrant
  }

  /** Since `base` the waiting key has not been granted, and every other key at most
      once; those that were cannot overtake it again. */
  ghost predicate Overtaken(p: Pool, waiting: string, base: nat) {
    && waiting in p.keys && base <= |p.log|
    && (forall i :: base <= i < |p.log| ==> p.log[i].key != waiting && Past(p, waiting, p.log[i].key))
    && (forall i, j :: base <= i < j < |p.log| ==> p.log[i].key != p.log[j].key)
  }

  ghost predicate InOrder(p: Pool, waiting: string, base: nat) {
    Overtaken(p, waiting, base) || (GrantedSince(p.log, waiting, base) && Fair(p.log, waiting, base))
  }

  // ----- Before the dispatch -----

  /** A step without grants after which the waiting key is still there. */
  ghost predicate KeepsPast(p: Pool, q: Pool, waiting: string) {
    && q.log == p.log
    && (waiting in q.keys ==> forall key :: Past(p, waiting, key) ==> Past(q, waiting, key))
  }

  lemma PruneKeepsPast(p: Pool, waiting: string)
    ensures KeepsPast(p, Prune(p), waiting)
  {
    forall age
      ensures waiting in p.keys && p.keys[waiting].lastGrant <= age ==> Counts(p, age)
    {
    }
  }

  lemma ForgetKeepsPast(p: Pool, key: string, waiting: string)
    requires key in p.keys && waiting in p.keys
    ensures KeepsPast(p, Forget(p, key), waiting)
  {
    var k := p.keys[key];
    if Idle(k) {
      var q := p.(keys := p.keys - {key}, idleGrants := if k.lastGrant != 0 then p.idleGrants[key := k.lastGrant] else p.idleGrants);
      PruneKeepsPast(q, waiting);
      if key != waiting {
        assert forall other :: Past(p, waiting, other) ==> Past(q, waiting, other);
      }
    }
  }

  lemma EnqueueKeepsPast(p: Pool, key: string, waiting: string)
    requires waiting in p.keys
    ensures KeepsPast(p, Enqueue(p, key), waiting)
  {
  }

  /** Ages stay as they are. */
  lemma SameAgesKeepPast(p: Pool, q: Pool, waiting: string)
    requires q.log == p.log && q.idleGrants == p.idleGrants && q.keys.Keys == p.keys.Keys
    requires forall key :: key in p.keys ==> q.keys[key].lastGrant == p.keys[key].lastGrant
    ensures KeepsPast(p, q, waiting)
  {
  }

  lemma PastKept(p: Pool, q: Pool, waiting: string, base: nat)
    requires Overtaken(p, waiting, base) && KeepsPast(p, q, waiting) && waiting in q.keys
    ensures Overtaken(q, waiting, base)
  {
    hide Past;
  }

  // ----- Within a dispatch -----

  lemma {:induction false} DrainExtends(p: Pool)
    requires Core(p)
    ensures |p.log| <= |Drain(p).log| && Drain(p).log[..|p.log|] == p.log
    decreases p.queued
  {
    hide Core, Wins, Drain;
    if p.inUse < p.capacity && exists key :: Wins(p, key) {
      var key :| Wins(p, key);
      DrainStep(p, key);
      WinnerIsEligible(p, key);
      DrainExtends(GrantTo(p, key));
      assert Drain(p).log[..|p.log| + 1][..|p.log|] == Drain(p).log[..|p.log|];
    } else {
      DrainNothing(p);
    }
  }

  lemma {:induction false} DrainNothing(p: Pool)
    requires Core(p) && !(p.inUse < p.capacity && exists key :: Wins(p, key))
    ensures Drain(p) == p
  {
    hide Core, Wins;
  }

  /** A key that is granted in a dispatch, or can be granted after it, could be
      granted before it. */
  lemma {:induction false} EligibleBefore(p: Pool, waiting: string)
    requires Core(p)
    requires Eligible(Drain(p), waiting) || GrantedSince(Drain(p).log, waiting, |p.log|)
    ensures Eligible(p, waiting)
    decreases p.queued
  {
    hide Core, Wins, Drain;
    if p.inUse < p.capacity && exists key :: Wins(p, key) {
      var key :| Wins(p, key);
      DrainStep(p, key);
      WinnerIsEligible(p, key);
      if key != waiting {
        DrainExtends(GrantTo(p, key));
        assert Drain(p).log[..|p.log| + 1] == GrantTo(p, key).log;
        assert Drain(p).log[|p.log|] == Drain(p).log[..|p.log| + 1][|p.log|];
        EligibleBefore(GrantTo(p, key), waiting);
      }
    } else {
      DrainNothing(p);
    }
  }

  lemma WinnerIsEligible(p: Pool, key: string)
    requires Wins(p, key)
    ensures Eligible(p, key)
  {
  }

  /** A key that cannot overtake the waiting one does not win against it. */
  lemma {:induction false} GrantOvertakes(p: Pool, waiting: string, base: nat, key: string)
    requires Core(p) && Overtaken(p, waiting, base) && Eligible(p, waiting) && Wins(p, key) && key != waiting
    ensures Overtaken(GrantTo(p, key), waiting, base)
  {
    hide Queues, Holdings, Totalled, InTurn;
    var q := GrantTo(p, key);
    assert Before(p.keys[key], p.keys[waiting]);
    assert !Past(p, waiting, key);
    assert Retained(p, waiting) == p.keys[waiting].lastGrant <= |p.log|;
    forall i | base <= i < |q.log|
      ensures q.log[i].key != waiting && Past(q, waiting, q.log[i].key)
    {
      if i < |p.log| {
        assert Past(p, waiting, p.log[i].key);
      }
    }
  }

  lemma {:induction false} WaitingGranted(p: Pool, waiting: string, base: nat, log: seq<Grant>)
    requires Overtaken(p, waiting, base)
    requires |p.log| < |log| && log[..|p.log|] == p.log && log[|p.log|].key == waiting
    ensures GrantedSince(log, waiting, base) && Fair(log, waiting, base)
  {
    hide Past;
    var m := |p.log|;
    forall i | 0 <= i < m
      ensures log[i] == p.log[i]
    {
      assert log[..m][i] == p.log[i];
    }
    forall i, j | base <= i < j < |log| && log[i].key == log[j].key
      ensures GrantedSince(log[..j], waiting, base)
    {
      assert j > m;
      assert log[..j][m].key == waiting;
    }
  }

  lemma {:induction false} DrainOvertakes(p: Pool, waiting: string, base: nat)
    requires Core(p) && Overtaken(p, waiting, base)
    requires Eligible(Drain(p), waiting) || GrantedSince(Drain(p).log, waiting, base)
    ensures InOrder(Drain(p), waiting, base)
    decreases p.queued
  {
    hide Core, Wins, Drain, Overtaken, Fair;
    if p.inUse < p.capacity && exists key :: Wins(p, key) {
      var key :| Wins(p, key);
      DrainStep(p, key);
      WinnerIsEligible(p, key);
      DrainExtends(GrantTo(p, key));
      SinceTheStart(p, waiting, base, Drain(p).log);
      EligibleBefore(p, waiting);
      if key == waiting {
        assert Drain(p).log[..|p.log| + 1] == GrantTo(p, key).log;
        FirstAfter(Drain(p).log, p.log, Grant(key, p.keys[key].waiters[0]));
        WaitingGranted(p, waiting, base, Drain(p).log);
      } else {
        GrantOvertakes(p, waiting, base, key);
        DrainOvertakes(GrantTo(p, key), waiting, base);
      }
    } else {
      DrainNothing(p);
    }
  }

  lemma FirstAfter(log: seq<Grant>, before: seq<Grant>, g: Grant)
    requires |log| > |before| && log[..|before| + 1] == before + [g]
    ensures log[..|before|] == before && log[|before|] == g
  {
    assert log[..|before| + 1][..|before|] == log[..|before|];
    assert log[..|before| + 1][|before|] == log[|before|];
  }

  /** The waiting key is granted only after what the log holds. */
  lemma SinceTheStart(p: Pool, waiting: string, base: nat, log: seq<Grant>)
    requires Core(p) && Overtaken(p, waiting, base) && |p.log| <= |log| && log == Drain(p).log
    ensures GrantedSince(log, waiting, base) ==> GrantedSince(log, waiting, |p.log|)
  {
    hide Core, Drain, Past;
    DrainExtends(p);
    if m :| base <= m < |log| && log[m].key == waiting {
      if m < |p.log| {
        assert log[..|p.log|][m] == p.log[m];
      }
    }
  }

  lemma {:induction false} DispatchOvertakes(p: Pool, waiting: string, base: nat)
    requires Core(p) && Overtaken(p, waiting, base)
    requires Eligible(Dispatch(p), waiting) || GrantedSince(Dispatch(p).log, waiting, base)
    ensures InOrder(Dispatch(p), waiting, base)
  {
    hide Core, Overtaken, Fair, Drain, Past;
    var d := Drain(p);
    DrainOvertakes(p, waiting, base);
    PruneKeepsPast(d, waiting);
    if Overtaken(d, waiting, base) {
      StillThere(d, waiting, base);
      PastKept(d, Prune(d), waiting, base);
    }
  }

  lemma StillThere(p: Pool, waiting: string, base: nat)
    requires Overtaken(p, waiting, base)
    ensures waiting in Prune(p).keys
  {
  }

  // ----- Over whole runs -----

  lemma {:induction false} ReturnOvertakes(p: Pool, t: nat, waiting: string, base: nat)
    requires Valid(p) && t in p.tickets && p.tickets[t].state.Granted?
    requires Eligible(p, waiting) && Overtaken(p, waiting, base)
    requires Eligible(ReturnSlot(p, t), waiting) || GrantedSince(ReturnSlot(p, t).log, waiting, base)
    ensures InOrder(ReturnSlot(p, t), waiting, base)
  {
    hide Core, Active, Quiet, Pruned, Dispatch, Overtaken, Past, Fair, KeepsPast;
    var key := p.tickets[t].key;
    ReturnKeeps(p, t);
    var returned := Return(p, t);
    var forgotten := Forget(returned, key);
    ForgetKeeps(returned, key);
    SameAgesKeepPast(p, returned, waiting);
    PastKept(p, returned, waiting, base);
    ForgetKeepsPast(returned, key, waiting);
    PastKept(returned, forgotten, waiting, base);
    DispatchOvertakes(forgotten, waiting, base);
  }

  lemma {:induction false} StepOvertakes(p: Pool, op: Op, waiting: string, base: nat)
    requires Valid(p) && Allowed(p, op)
    requires Eligible(p, waiting) && Overtaken(p, waiting, base)
    requires Eligible(Apply(p, op), waiting) || GrantedSince(Apply(p, op).log, waiting, base)
    ensures InOrder(Apply(p, op), waiting, base)
  {
    hide Core, Active, Quiet, Pruned, Dispatch, Overtaken, Past, Fair, KeepsPast, Forget, Wins;
    match op
    case Acquire(key) =>
      EnqueueKeeps(p, key);
      EnqueueKeepsPast(p, key, waiting);
      PastKept(p, Enqueue(p, key), waiting, base);
      DispatchOvertakes(Enqueue(p, key), waiting, base);
    case Cancel(t) =>
      if p.tickets[t].state.Waiting? {
        LeaveKeeps(p, t);
        var left := Leave(p, t);
        NotGrantedYet(p, waiting, base);
        SameAgesKeepPast(p, left, waiting);
        PastKept(p, left, waiting, base);
        ForgetKeepsPast(left, p.tickets[t].key, waiting);
        LogKept(left, p.tickets[t].key);
        PastKept(left, Forget(left, p.tickets[t].key), waiting, base);
      } else if p.tickets[t].state.Granted? {
        ReturnOvertakes(p, t, waiting, base);
      }
    case Release(t) =>
      if p.tickets[t].state.Granted? {
        ReturnOvertakes(p, t, waiting, base);
      }
    case FailWaiters(key) =>
      if key in p.keys {
        FailKeeps(p, key);
        var failed := Fail(p, key);
        NotGrantedYet(p, waiting, base);
        SameAgesKeepPast(p, failed, waiting);
        PastKept(p, failed, waiting, base);
        ForgetKeepsPast(failed, key, waiting);
        LogKept(failed, key);
        PastKept(failed, Forget(failed, key), waiting, base);
      }
    case SetCapacity(capacity, capFor) =>
      RescaleKeeps(p, AtLeastNone(capacity), capFor);
      SameAgesKeepPast(p, Rescale(p, AtLeastNone(capacity), capFor), waiting);
      PastKept(p, Rescale(p, AtLeastNone(capacity), capFor), waiting, base);
      DispatchOvertakes(Rescale(p, AtLeastNone(capacity), capFor), waiting, base);
    case SetCaps(capFor) =>
      RescaleKeeps(p, p.capacity, capFor);
      SameAgesKeepPast(p, Rescale(p, p.capacity, capFor), waiting);
      PastKept(p, Rescale(p, p.capacity, capFor), waiting, base);
      DispatchOvertakes(Rescale(p, p.capacity, capFor), waiting, base);
  }

  lemma LogKept(p: Pool, key: string)
    requires key in p.keys
    ensures Forget(p, key).log == p.log
  {
  }

  lemma NotGrantedYet(p: Pool, waiting: string, base: nat)
    requires Overtaken(p, waiting, base)
    ensures !GrantedSince(p.log, waiting, base)
  {
  }

  /** The states that a sequence of operations leads through. */
  ghost predicate Run(states: seq<Pool>, ops: seq<Op>) {
    && |states| == |ops| + 1
    && Valid(states[0])
    && forall i :: 0 <= i < |ops| ==> Valid(states[i]) && Allowed(states[i], ops[i]) && states[i + 1] == Apply(states[i], ops[i])
  }

  /** The key has a waiter and is below its limit, until it is granted. */
  ghost predicate WaitsThroughout(states: seq<Pool>, waiting: string)
    requires |states| > 0
  {
    forall i :: 0 <= i < |states| ==> Eligible(states[i], waiting) || GrantedSince(states[i].log, waiting, |states[0].log|)
  }

  /** While a key has a waiter and is below its limit, every other key is granted at
      most once before it, even one that goes idle and queues again in between, and
      whatever else happens to the pool. */
  lemma {:induction false} BoundedOvertaking(states: seq<Pool>, ops: seq<Op>, waiting: string)
    requires Run(states, ops) && WaitsThroughout(states, waiting)
    ensures Fair(states[|ops|].log, waiting, |states[0].log|)
  {
    hide Valid, Eligible, Fair, Apply, Overtaken;
    NothingYet(states[0], waiting);
    InOrderThroughout(states, ops, waiting, |ops|);
    if Overtaken(states[|ops|], waiting, |states[0].log|) {
      OvertakenIsFair(states[|ops|], waiting, |states[0].log|);
    }
  }

  lemma NothingYet(p: Pool, waiting: string)
    ensures !GrantedSince(p.log, waiting, |p.log|)
  {
  }

  lemma OvertakenIsFair(p: Pool, waiting: string, base: nat)
    requires Overtaken(p, waiting, base)
    ensures Fair(p.log, waiting, base)
  {
    hide Past;
  }

  lemma {:induction false} InOrderThroughout(states: seq<Pool>, ops: seq<Op>, waiting: string, n: nat)
    requires Run(states, ops) && WaitsThroughout(states, waiting) && n <= |ops|
    ensures InOrder(states[n], waiting, |states[0].log|)
  {
    hide Valid, Fair, Apply, Overtaken, GrantedSince;
    var base := |states[0].log|;
    if n == 0 {
      NothingYet(states[0], waiting);
      StartsOvertaken(states[0], waiting);
    } else {
      InOrderThroughout(states, ops, waiting, n - 1);
      var p, op := states[n - 1], ops[n - 1];
      assert Valid(p) && states[n] == Apply(p, op);
      if Overtaken(p, waiting, base) {
        NotGrantedYet(p, waiting, base);
        StepOvertakes(p, op, waiting, base);
      } else {
        LogExtends(p, op);
        StaysFair(p.log, states[n].log, waiting, base);
      }
    }
  }

  lemma StartsOvertaken(p: Pool, waiting: string)
    requires Eligible(p, waiting)
    ensures Overtaken(p, waiting, |p.log|)
  {
  }

  lemma {:induction false} StaysFair(before: seq<Grant>, after: seq<Grant>, waiting: string, base: nat)
    requires GrantedSince(before, waiting, base) && Fair(before, waiting, base)
    requires |before| <= |after| && after[..|before|] == before
    ensures GrantedSince(after, waiting, base) && Fair(after, waiting, base)
  {
    forall i | 0 <= i < |before|
      ensures after[i] == before[i]
    {
      assert after[..|before|][i] == before[i];
    }
    var m :| base <= m < |before| && before[m].key == waiting;
    assert after[m].key == waiting;
    forall i, j | base <= i < j < |after| && after[i].key == after[j].key
      ensures GrantedSince(after[..j], waiting, base)
    {
      if j < |before| {
        assert before[i].key == before[j].key;
        assert after[..j] == before[..j];
      } else {
        assert after[..j][m].key == waiting;
      }
    }
  }

  lemma {:induction false} LogExtends(p: Pool, op: Op)
    requires Valid(p) && Allowed(p, op)
    ensures |p.log| <= |Apply(p, op).log| && Apply(p, op).log[..|p.log|] == p.log
  {
    hide Core, Active, Quiet, Pruned, Drain, Forget;
    match op
    case Acquire(key) =>
      EnqueueKeeps(p, key);
      DrainExtends(Enqueue(p, key));
    case Cancel(t) =>
      if p.tickets[t].state.Waiting? {
        LeaveKeeps(p, t);
        LogKept(Leave(p, t), p.tickets[t].key);
      } else if p.tickets[t].state.Granted? {
        ReturnExtends(p, t);
      }
    case Release(t) =>
      if p.tickets[t].state.Granted? {
        ReturnExtends(p, t);
      }
    case FailWaiters(key) =>
      if key in p.keys {
        FailKeeps(p, key);
        LogKept(Fail(p, key), key);
      }
    case SetCapacity(capacity, capFor) =>
      RescaleKeeps(p, AtLeastNone(capacity), capFor);
      DrainExtends(Rescale(p, AtLeastNone(capacity), capFor));
    case SetCaps(capFor) =>
      RescaleKeeps(p, p.capacity, capFor);
      DrainExtends(Rescale(p, p.capacity, capFor));
  }

  lemma {:induction false} ReturnExtends(p: Pool, t: nat)
    requires Valid(p) && t in p.tickets && p.tickets[t].state.Granted?
    ensures var q := ReturnSlot(p, t);
            |p.log| <= |q.log| && q.log[..|p.log|] == p.log
  {
    hide Core, Active, Quiet, Pruned, Drain, Forget, ActiveBut;
    var key := p.tickets[t].key;
    ReturnKeeps(p, t);
    ForgetKeeps(Return(p, t), key);
    LogKept(Return(p, t), key);
    DrainExtends(Forget(Return(p, t), key));
  }

  // ----- What a dispatch respects -----

  /** A dispatch grants within the capacity and within every key's limit; it takes
      no slot from a key that is over either. */
  lemma {:induction false} DrainRespects(p: Pool, key: string)
    requires Core(p)
    ensures p.inUse <= Drain(p).inUse && (Drain(p).inUse > p.inUse ==> Drain(p).inUse <= p.capacity)
    ensures InUse(p, key) <= InUse(Drain(p), key)
    ensures InUse(Drain(p), key) > InUse(p, key) ==> InUse(Drain(p), key) <= Limit(p, key)
    decreases p.queued
  {
    hide Core, Wins, Drain;
    if p.inUse < p.capacity && exists k :: Wins(p, k) {
      var k :| Wins(p, k);
      DrainStep(p, k);
      WinnerIsEligible(p, k);
      DrainRespects(GrantTo(p, k), key);
    } else {
      DrainNothing(p);
    }
  }

  /** A dispatch gives a capped key no slot beyond its cap, and none beyond the
      capacity to any. */
  lemma CapIsKept(p: Pool, key: string)
    requires Core(p) && InUse(Drain(p), key) > InUse(p, key)
    ensures p.capFor(key) > 0 ==> InUse(Drain(p), key) <= p.capFor(key)
    ensures InUse(Drain(p), key) <= p.capacity
  {
    hide Core, Drain;
    DrainRespects(p, key);
  }

  /** No operation brings a key above its cap or the slots above the capacity. */
  lemma {:induction false} GainsWithinCap(p: Pool, op: Op, key: string)
    requires Valid(p) && Allowed(p, op)
    ensures var q := Apply(p, op);
            && (InUse(q, key) > InUse(p, key) && q.capFor(key) > 0 ==> InUse(q, key) <= q.capFor(key))
            && (q.inUse > p.inUse ==> q.inUse <= q.capacity)
  {
    hide Core, Active, Quiet, Pruned, Drain, Forget, ActiveBut;
    match op
    case Acquire(k) =>
      EnqueueKeeps(p, k);
      DrainedWithinCap(Enqueue(p, k), key);
    case Cancel(t) =>
      if p.tickets[t].state.Waiting? {
        LeaveKeeps(p, t);
        KeepsSlotsOf(Leave(p, t), p.tickets[t].key, key);
      } else if p.tickets[t].state.Granted? {
        ReturnedWithinCap(p, t, key);
      }
    case Release(t) =>
      if p.tickets[t].state.Granted? {
        ReturnedWithinCap(p, t, key);
      }
    case FailWaiters(k) =>
      if k in p.keys {
        KeepsSlotsOf(Fail(p, k), k, key);
      }
    case SetCapacity(capacity, capFor) =>
      RescaleKeeps(p, AtLeastNone(capacity), capFor);
      DrainedWithinCap(Rescale(p, AtLeastNone(capacity), capFor), key);
    case SetCaps(capFor) =>
      RescaleKeeps(p, p.capacity, capFor);
      DrainedWithinCap(Rescale(p, p.capacity, capFor), key);
  }

  lemma DrainedWithinCap(p: Pool, key: string)
    requires Core(p)
    ensures var q := Dispatch(p);
            && q.capFor == p.capFor && q.capacity == p.capacity
            && (InUse(q, key) > InUse(p, key) && p.capFor(key) > 0 ==> InUse(q, key) <= p.capFor(key))
            && (q.inUse > p.inUse ==> q.inUse <= p.capacity)
  {
    hide Core, Drain;
    DrainRespects(p, key);
    DrainRules(p);
  }

  /** A dispatch changes neither the capacity nor the caps. */
  lemma {:induction false} DrainRules(p: Pool)
    requires Core(p)
    ensures Drain(p).capFor == p.capFor && Drain(p).capacity == p.capacity
    decreases p.queued
  {
    hide Core, Wins, Drain;
    if p.inUse < p.capacity && exists k :: Wins(p, k) {
      var k :| Wins(p, k);
      DrainStep(p, k);
      WinnerIsEligible(p, k);
      DrainRules(GrantTo(p, k));
    } else {
      DrainNothing(p);
    }
  }

  lemma KeepsSlotsOf(p: Pool, idle: string, key: string)
    requires idle in p.keys
    ensures var q := Forget(p, idle);
            InUse(q, key) == InUse(p, key) && q.inUse == p.inUse && q.capFor == p.capFor && q.capacity == p.capacity
  {
    hide Counts;
  }

  lemma {:induction false} ReturnedWithinCap(p: Pool, t: nat, key: string)
    requires Valid(p) && t in p.tickets && p.tickets[t].state.Granted?
    ensures var q := ReturnSlot(p, t);
            && q.capFor == p.capFor && q.capacity == p.capacity
            && (InUse(q, key) > InUse(p, key) && p.capFor(key) > 0 ==> InUse(q, key) <= p.capFor(key))
            && (q.inUse > p.inUse ==> q.inUse <= p.capacity)
  {
    hide Core, Active, Quiet, Pruned, Drain, Forget, ActiveBut;
    ReturnKeeps(p, t);
    ForgetKeeps(Return(p, t), p.tickets[t].key);
    KeepsSlotsOf(Return(p, t), p.tickets[t].key, key);
    DrainedWithinCap(Forget(Return(p, t), p.tickets[t].key), key);
  }

  /** After every operation a key waits beside a free slot only because of its cap,
      so a key without a cap never does. */
  lemma {:induction false} OnlyCapsWait(p: Pool, op: Op, key: string)
    requires Valid(p) && Allowed(p, op)
    requires Apply(p, op).inUse < Apply(p, op).capacity && Waiters(Apply(p, op), key) != []
    ensures 0 < Apply(p, op).capFor(key) <= InUse(Apply(p, op), key)
  {
    hide Apply, Queues, Holdings, Aged, InTurn, Active, Pruned, Sum;
    ApplyKeeps(p, op);
    var q := Apply(p, op);
    assert !Eligible(q, key);
    UsesNoMore(q, key);
  }

  lemma UsesNoMore(p: Pool, key: string)
    requires Core(p) && key in p.keys
    ensures p.keys[key].inUse <= p.inUse
  {
    hide Aged, InTurn, Sum, Queues;
    forall k | k in p.keys
      ensures Part(p.keys[k], false) >= 0
    {
      NotNegative(p, k);
    }
    SumAtLeast(p.keys, false, key);
  }

  /** Only setting them changes the capacity, which is never negative, and the caps. */
  lemma {:induction false} RulesAreSet(p: Pool, op: Op)
    requires Valid(p) && Allowed(p, op)
    ensures var q := Apply(p, op);
            && q.capacity == (if !op.SetCapacity? then p.capacity else if op.capacity < 0 then 0 else op.capacity)
            && q.capFor == (if op.SetCapacity? then op.capFor else if op.SetCaps? then op.caps else p.capFor)
  {
    hide Core, Active, Quiet, Pruned, Drain, Forget, ActiveBut;
    match op
    case Acquire(k) =>
      EnqueueKeeps(p, k);
      DrainRules(Enqueue(p, k));
    case Cancel(t) =>
      if p.tickets[t].state.Waiting? {
        LeaveKeeps(p, t);
        KeepsSlotsOf(Leave(p, t), p.tickets[t].key, "");
      } else if p.tickets[t].state.Granted? {
        ReturnedWithinCap(p, t, "");
      }
    case Release(t) =>
      if p.tickets[t].state.Granted? {
        ReturnedWithinCap(p, t, "");
      }
    case FailWaiters(k) =>
      if k in p.keys {
        KeepsSlotsOf(Fail(p, k), k, "");
      }
    case SetCapacity(capacity, capFor) =>
      RescaleKeeps(p, AtLeastNone(capacity), capFor);
      DrainRules(Rescale(p, AtLeastNone(capacity), capFor));
    case SetCaps(capFor) =>
      RescaleKeeps(p, p.capacity, capFor);
      DrainRules(Rescale(p, p.capacity, capFor));
  }

  /** Canceling a call that was granted a slot and releasing it do the same, the call
      is over afterwards, and doing either again changes nothing. */
  lemma {:induction false} CanceledOrReleasedIsOver(p: Pool, t: nat)
    requires Valid(p) && t in p.tickets && (p.tickets[t].state.Granted? || p.tickets[t].state.Over?)
    ensures Apply(p, Cancel(t)) == Apply(p, Release(t))
    ensures t in Apply(p, Release(t)).tickets && Apply(p, Release(t)).tickets[t].state.Over?
    ensures p.tickets[t].state.Over? ==> Apply(p, Release(t)) == p
  {
    hide Core, Active, Quiet, Pruned, ReturnSlot, LeaveQueue;
    TicketMoves(p, Release(t));
  }

  /** A call that is over stays over. With as many granted calls as used slots, a slot
      that was granted to a canceled call, or released twice, goes back once. */
  lemma {:induction false} OverIsFinal(p: Pool, op: Op, t: nat)
    requires Valid(p) && Allowed(p, op) && t in p.tickets && p.tickets[t].state.Over?
    ensures t in Apply(p, op).tickets && Apply(p, op).tickets[t].state.Over?
  {
    hide Core, Active, Quiet, Pruned, Apply;
    TicketMoves(p, op);
  }
}
