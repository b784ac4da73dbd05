/** The order of grants against that of a pool that forgets no grant age. */
module SlotMemory {
  import opened SlotState
  import opened SlotSteps
  import opened SlotDispatch

  // ----- Least recently granted first -----

  /** The key that a dispatch grants was granted before every other eligible key whose
      age is kept, also when the winner's own age was forgotten. */
  lemma {:induction false} GrantsLeastRecentlyGranted(p: Pool, winner: string, other: string)
    requires Core(p) && Wins(p, winner) && Eligible(p, other) && other != winner && p.keys[other].lastGrant > 0
    ensures LastGrant(p.log, winner) < LastGrant(p.log, other)
  {
    hide Queues, Holdings, Totalled, InTurn, LastGrant;
    assert Before(p.keys[winner], p.keys[other]);
    assert Retained(p, winner) == p.keys[winner].lastGrant && Retained(p, other) == p.keys[other].lastGrant;
    LastGrantIsLast(p.log, winner);
    LastGrantIsLast(p.log, other);
  }

  /** A dropped age is below every active key's. */
  lemma DroppedAgesSortFirst(p: Pool, key: string, other: string)
    requires Aged(p) && key in p.idleGrants && key !in Prune(p).idleGrants && other in p.keys
    ensures 0 < p.idleGrants[key] < p.keys[other].lastGrant
  {
    hide LastGrant;
    assert !Counts(p, p.idleGrants[key]);
  }

  /** A key that returns without an age sorts before every key that has one, and was
      indeed granted before it. */
  lemma {:induction false} ReturnsFirst(p: Pool, key: string, other: string)
    requires Core(p) && key !in p.keys && key !in p.idleGrants
    requires other in p.keys && p.keys[other].waiters != [] && p.keys[other].lastGrant > 0
    ensures var q := Enqueue(p, key);
            && Before(q.keys[key], q.keys[other])
            && LastGrant(q.log, key) < LastGrant(q.log, other)
  {
    hide Queues, Holdings, Totalled, InTurn, LastGrant;
    assert Retained(p, key) == 0 && Retained(p, other) == p.keys[other].lastGrant;
  }

  // ----- A pool that forgets nothing -----

  ghost predicate TrulyBefore(p: Pool, a: string, b: string)
    requires a in p.keys && b in p.keys && p.keys[a].waiters != [] && p.keys[b].waiters != []
  {
    || LastGrant(p.log, a) < LastGrant(p.log, b)
    || (LastGrant(p.log, a) == LastGrant(p.log, b) && p.keys[a].waiters[0] < p.keys[b].waiters[0])
  }

  /** The key that a pool which forgets nothing grants next. */
  ghost predicate TrulyWins(p: Pool, key: string) {
    && Eligible(p, key)
    && forall other :: Eligible(p, other) && other != key ==> TrulyBefore(p, key, other)
  }

  /** The pool grants the key that one which forgets nothing would grant if and only if
      no eligible key without an age was granted before it. */
  lemma {:induction false} AgreesWithFullMemory(p: Pool, winner: string)
    requires Core(p) && Wins(p, winner)
    ensures TrulyWins(p, winner)
            <==> forall other :: Eligible(p, other) && p.keys[other].lastGrant == 0 ==>
                   LastGrant(p.log, winner) <= LastGrant(p.log, other)
  {
    hide Queues, Holdings, Aged, Totalled, InTurn, LastGrant;
    if forall other :: Eligible(p, other) && p.keys[other].lastGrant == 0 ==> LastGrant(p.log, winner) <= LastGrant(p.log, other) {
      forall other | Eligible(p, other) && other != winner
        ensures TrulyBefore(p, winner, other)
      {
        assert Before(p.keys[winner], p.keys[other]);
        if p.keys[other].lastGrant > 0 {
          GrantsLeastRecentlyGranted(p, winner, other);
        } else {
          assert p.keys[winner].waiters[0] < p.keys[other].waiters[0];
        }
      }
    }
  }

  /** A key without an age is eligible only beside a winner without one. */
  lemma ZeroesWin(p: Pool, winner: string, other: string)
    requires Wins(p, winner) && Eligible(p, other) && p.keys[other].lastGrant == 0
    ensures p.keys[winner].lastGrant == 0
  {
  }

  /** In particular it does while at most one eligible key has no age. */
  lemma {:induction false} AgreesWithOneForgotten(p: Pool, winner: string)
    requires Core(p) && Wins(p, winner)
    requires forall a, b :: Eligible(p, a) && p.keys[a].lastGrant == 0 && Eligible(p, b) && p.keys[b].lastGrant == 0 ==> a == b
    ensures TrulyWins(p, winner)
  {
    hide Core, LastGrant;
    AgreesWithFullMemory(p, winner);
    forall other | Eligible(p, other) && p.keys[other].lastGrant == 0
      ensures other == winner
    {
      ZeroesWin(p, winner, other);
    }
  }

  /** Of several eligible keys without an age, the one that waited longest is granted.
      That is the right one exactly when it also is the one granted longest ago. */
  lemma {:induction false} AgreesWithSeveralForgotten(p: Pool, first: string)
    requires Core(p) && Eligible(p, first) && p.keys[first].lastGrant == 0
    requires forall other :: Eligible(p, other) && p.keys[other].lastGrant == 0 && other != first ==>
               p.keys[first].waiters[0] < p.keys[other].waiters[0]
    ensures Wins(p, first)
    ensures TrulyWins(p, first)
            <==> forall other :: Eligible(p, other) && p.keys[other].lastGrant == 0 ==>
                   LastGrant(p.log, first) <= LastGrant(p.log, other)
  {
    hide Core, LastGrant;
    AgreesWithFullMemory(p, first);
  }

  // ----- Where the two differ -----

  /** A key is granted and forgotten; while another holds the slot, it and a key that
      was never granted queue. */
  function ForgottenAndNew(a: string, b: string, x: string): seq<Op> {
    [Acquire(a), Release(1), Acquire(x), Acquire(a), Acquire(b)]
  }

  function NoCap(): string -> int {
    key => 0
  }

  ghost function Reaches(a: string, b: string, x: string, n: nat): Pool
    requires n <= 5
  {
    match n
    case 0 => Fresh(1, NoCap())
    case 1 => Pool(1, NoCap(), 1, 0, 1, 1, map[a := KeyState(1, 1, [])], map[], map[1 := Ticket(a, Granted)], [Grant(a, 1)])
    case 2 => Pool(1, NoCap(), 0, 0, 1, 1, map[], map[], map[1 := Ticket(a, Over)], [Grant(a, 1)])
    case 3 => Pool(1, NoCap(), 1, 0, 2, 2, map[x := KeyState(1, 2, [])], map[], map[1 := Ticket(a, Over), 2 := Ticket(x, Granted)],
                   [Grant(a, 1), Grant(x, 2)])
    case 4 => Pool(1, NoCap(), 1, 1, 2, 3, map[x := KeyState(1, 2, []), a := KeyState(0, 0, [3])], map[],
                   map[1 := Ticket(a, Over), 2 := Ticket(x, Granted), 3 := Ticket(a, Waiting)], [Grant(a, 1), Grant(x, 2)])
    case 5 => Pool(1, NoCap(), 1, 2, 2, 4, map[x := KeyState(1, 2, []), a := KeyState(0, 0, [3]), b := KeyState(0, 0, [4])], map[],
                   map[1 := Ticket(a, Over), 2 := Ticket(x, Granted), 3 := Ticket(a, Waiting), 4 := Ticket(b, Waiting)],
                   [Grant(a, 1), Grant(x, 2)])
  }

  lemma {:induction false} GrantsAtOnce(p: Pool, key: string)
    requires Valid(p) && p.keys == map[] && p.capacity == 1 && p.inUse == 0 && p.capFor == NoCap() && p.idleGrants == map[]
    ensures Apply(p, Acquire(key))
            == p.(arrivals := p.arrivals + 1, inUse := 1, grants := p.grants + 1,
                  keys := map[key := KeyState(1, p.grants + 1, [])],
                  tickets := p.tickets[p.arrivals + 1 := Ticket(key, Granted)],
                  log := p.log + [Grant(key, p.arrivals + 1)])
  {
    hide Core, Drain;
    var q := Enqueue(p, key);
    EnqueueKeeps(p, key);
    assert Eligible(q, key);
    DrainStep(q, key);
    var granted := GrantTo(q, key);
    DrainEnds(granted);
    assert ([] + [p.arrivals + 1])[1..] == [];
    assert granted.tickets == p.tickets[p.arrivals + 1 := Ticket(key, Granted)];
    assert granted.keys == map[key := KeyState(1, p.grants + 1, [])];
    assert Prune(granted) == granted;
  }

  lemma {:induction false} QueuesBehind(p: Pool, key: string)
    requires Valid(p) && p.capacity == 1 && p.inUse == 1 && key !in p.keys && p.idleGrants == map[]
    ensures Apply(p, Acquire(key))
            == p.(arrivals := p.arrivals + 1, queued := p.queued + 1,
                  keys := p.keys[key := KeyState(0, 0, [p.arrivals + 1])],
                  tickets := p.tickets[p.arrivals + 1 := Ticket(key, Waiting)])
  {
    hide Core, Drain;
    var q := Enqueue(p, key);
    EnqueueKeeps(p, key);
    DrainEnds(q);
    assert [] + [p.arrivals + 1] == [p.arrivals + 1];
    assert Prune(q).idleGrants == map[] && q.idleGrants == map[];
  }

  lemma {:induction false} IsForgotten(p: Pool, t: nat, key: string)
    requires Valid(p) && p.keys == map[key := KeyState(1, p.grants, [])] && p.inUse == 1 && p.idleGrants == map[]
    requires t in p.tickets && p.tickets[t] == Ticket(key, Granted)
    ensures Apply(p, Release(t)) == p.(inUse := 0, keys := map[], tickets := p.tickets[t := Ticket(key, Over)])
  {
    hide Core, Drain;
    var q := Return(p, t);
    ReturnKeeps(p, t);
    ForgetKeeps(q, key);
    var forgotten := Forget(q, key);
    assert q.keys == map[key := KeyState(0, p.grants, [])];
    assert q.keys - {key} == map[];
    assert forgotten.keys == map[] && forgotten.idleGrants == map[];
    DrainEnds(forgotten);
    assert Prune(forgotten).idleGrants == map[];
  }

  lemma {:induction false} ReachesThird(a: string, b: string, x: string)
    requires a != x
    ensures Valid(Reaches(a, b, x, 0)) && Valid(Reaches(a, b, x, 1)) && Valid(Reaches(a, b, x, 2)) && Valid(Reaches(a, b, x, 3))
    ensures Reaches(a, b, x, 1) == Apply(Reaches(a, b, x, 0), Acquire(a))
    ensures Reaches(a, b, x, 2) == Apply(Reaches(a, b, x, 1), Release(1))
    ensures Reaches(a, b, x, 3) == Apply(Reaches(a, b, x, 2), Acquire(x))
  {
    hide Valid, Apply;
    assert [] + [Grant(a, 1)] == [Grant(a, 1)] && [Grant(a, 1)] + [Grant(x, 2)] == [Grant(a, 1), Grant(x, 2)];
    FreshIsValid(1, NoCap());
    ApplyKeeps(Reaches(a, b, x, 0), Acquire(a));
    GrantsAtOnce(Reaches(a, b, x, 0), a);
    ApplyKeeps(Reaches(a, b, x, 1), Release(1));
    IsForgotten(Reaches(a, b, x, 1), 1, a);
    assert map[1 := Ticket(a, Granted)][1 := Ticket(a, Over)] == map[1 := Ticket(a, Over)];
    ApplyKeeps(Reaches(a, b, x, 2), Acquire(x));
    GrantsAtOnce(Reaches(a, b, x, 2), x);
  }

  lemma {:induction false} ReachesFifth(a: string, b: string, x: string)
    requires a != b && a != x && b != x && Valid(Reaches(a, b, x, 3))
    ensures Valid(Reaches(a, b, x, 4)) && Valid(Reaches(a, b, x, 5))
    ensures Reaches(a, b, x, 4) == Apply(Reaches(a, b, x, 3), Acquire(a))
    ensures Reaches(a, b, x, 5) == Apply(Reaches(a, b, x, 4), Acquire(b))
  {
    hide Valid, Apply;
    ApplyKeeps(Reaches(a, b, x, 3), Acquire(a));
    QueuesBehind(Reaches(a, b, x, 3), a);
    ApplyKeeps(Reaches(a, b, x, 4), Acquire(b));
    QueuesBehind(Reaches(a, b, x, 4), b);
  }

  ghost function Choice(a: string, b: string, x: string): Pool {
    Pool(1, NoCap(), 0, 2, 2, 4, map[a := KeyState(0, 0, [3]), b := KeyState(0, 0, [4])], map[x := 2],
         map[1 := Ticket(a, Over), 2 := Ticket(x, Over), 3 := Ticket(a, Waiting), 4 := Ticket(b, Waiting)],
         [Grant(a, 1), Grant(x, 2)])
  }

  /** The slot goes back, and the two keys that wait have no age. */
  lemma {:induction false} SlotComesBack(a: string, b: string, x: string)
    requires a != b && a != x && b != x
    ensures Forget(Return(Reaches(a, b, x, 5), 2), x) == Choice(a, b, x)
  {
    var last := Reaches(a, b, x, 5);
    var returned := Return(last, 2);
    assert Idle(returned.keys[x]);
    var dropped := returned.(keys := returned.keys - {x}, idleGrants := map[x := 2]);
    assert dropped.keys == map[a := KeyState(0, 0, [3]), b := KeyState(0, 0, [4])];
    assert a in dropped.keys && dropped.keys[a].lastGrant <= 2;
    assert Counts(dropped, 2);
    assert Prune(dropped).idleGrants == map[x := 2];
    assert map[][x := 2] == map[x := 2];
  }

  lemma {:induction false} ForgottenIsChosen(a: string, b: string, x: string)
    requires a != b && a != x && b != x
    ensures var p := Choice(a, b, x);
            Wins(p, a) && !TrulyWins(p, a) && TrulyWins(p, b)
  {
    hide LastGrant;
    var p := Choice(a, b, x);
    TwoGrants(a, b, x);
    assert Eligible(p, a) && Eligible(p, b);
    assert forall key :: Eligible(p, key) ==> key == a || key == b;
  }

  lemma TwoGrants(a: string, b: string, x: string)
    requires a != b && a != x && b != x
    ensures var log := [Grant(a, 1), Grant(x, 2)];
            LastGrant(log, a) == 1 && LastGrant(log, b) == 0
  {
    hide LastGrant;
    LastGrantAppend([Grant(a, 1)], Grant(x, 2), a);
    LastGrantAppend([Grant(a, 1)], Grant(x, 2), b);
    LastGrantAppend([], Grant(a, 1), a);
    LastGrantAppend([], Grant(a, 1), b);
    NoGrants(b);
    assert [] + [Grant(a, 1)] == [Grant(a, 1)] && [Grant(a, 1)] + [Grant(x, 2)] == [Grant(a, 1), Grant(x, 2)];
  }

  lemma NoGrants(key: string)
    ensures LastGrant([], key) == 0
  {
  }

  lemma {:induction false} LastStep(a: string, b: string, x: string)
    requires a != b && a != x && b != x && Valid(Reaches(a, b, x, 5))
    ensures var p := Forget(Return(Reaches(a, b, x, 5), 2), x);
            && Core(p) && p.inUse < p.capacity
            && Apply(Reaches(a, b, x, 5), Release(2)) == Dispatch(p)
  {
    hide Core, Active, Quiet, Pruned, ActiveBut, Drain;
    var last := Reaches(a, b, x, 5);
    ReturnKeeps(last, 2);
    ForgetKeeps(Return(last, 2), x);
    SlotComesBack(a, b, x);
  }

  /** The pool reaches a state in which it grants another key than a pool that forgets
      nothing: the key with the forgotten age arrived before a key never granted. */
  lemma {:induction false} ForgettingChangesTheOrder(a: string, b: string, x: string)
    requires a != b && a != x && b != x
    ensures forall n :: 0 <= n <= 5 ==> Valid(Reaches(a, b, x, n))
    ensures forall n :: 0 <= n < 5 ==>
              && Allowed(Reaches(a, b, x, n), ForgottenAndNew(a, b, x)[n])
              && Reaches(a, b, x, n + 1) == Apply(Reaches(a, b, x, n), ForgottenAndNew(a, b, x)[n])
    ensures var p := Forget(Return(Reaches(a, b, x, 5), 2), x);
            && Core(p) && p.inUse < p.capacity
            && Apply(Reaches(a, b, x, 5), Release(2)) == Dispatch(p)
            && Wins(p, a) && !TrulyWins(p, a) && TrulyWins(p, b)
  {
    hide Valid, Apply, Forget, Return, Dispatch, Core, Wins, TrulyWins;
    ReachesThird(a, b, x);
    ReachesFifth(a, b, x);
    LastStep(a, b, x);
    SlotComesBack(a, b, x);
    ForgottenIsChosen(a, b, x);
  }
}
