/** The state of the slot pool as a value, and what each locked region of the pool
    does to it. */
module SlotState {

  /** A key's slots and its queue, kept as long as either has something in it. A last
      grant of 0 means that no grant age is retained. */
  datatype KeyState = KeyState(inUse: int, lastGrant: nat, waiters: seq<nat>)

  /** An Acquire call, which its arrival identifies: it waits, holds a slot, was
      failed, or is over. */
  datatype TicketState = Waiting | Granted | Failed | Over
  datatype Ticket = Ticket(key: string, state: TicketState)

  datatype Grant = Grant(key: string, ticket: nat)

  /** The pool, with a log of every grant: grant n has age n + 1. */
  datatype Pool = Pool(capacity: int, capFor: string -> int, inUse: int, queued: int, grants: nat, arrivals: nat,
                       keys: map<string, KeyState>, idleGrants: map<string, nat>,
                       tickets: map<nat, Ticket>, log: seq<Grant>)

  /** The most slots a key may hold: its cap when it is set and below the capacity. */
  function SlotLimit(capacity: int, keyCap: int): int {
    if 0 < keyCap < capacity then keyCap else capacity
  }

  function Limit(p: Pool, key: string): int {
    SlotLimit(p.capacity, p.capFor(key))
  }

  function InUse(p: Pool, key: string): int {
    if key in p.keys then p.keys[key].inUse else 0
  }

  function Waiters(p: Pool, key: string): seq<nat> {
    if key in p.keys then p.keys[key].waiters else []
  }

  // ----- Which key is granted next -----

  predicate Eligible(p: Pool, key: string) {
    key in p.keys && p.keys[key].waiters != [] && p.keys[key].inUse < Limit(p, key)
  }

  /** Least recently granted first, then the waiter that arrived first. */
  predicate Before(a: KeyState, b: KeyState)
    requires a.waiters != [] && b.waiters != []
  {
    a.lastGrant < b.lastGrant || (a.lastGrant == b.lastGrant && a.waiters[0] < b.waiters[0])
  }

  ghost predicate Wins(p: Pool, key: string) {
    && Eligible(p, key)
    && forall other :: Eligible(p, other) && other != key ==> Before(p.keys[key], p.keys[other])
  }

  /** The head waiter of a key gets a slot. */
  function GrantTo(p: Pool, key: string): Pool
    requires key in p.keys && p.keys[key].waiters != []
  {
    var k := p.keys[key];
    var head := k.waiters[0];
    p.(queued := p.queued - 1, inUse := p.inUse + 1, grants := p.grants + 1,
       keys := p.keys[key := KeyState(k.inUse + 1, p.grants + 1, k.waiters[1..])],
       tickets := p.tickets[head := Ticket(key, Granted)],
       log := p.log + [Grant(key, head)])
  }

  // ----- Grant ages of idle keys -----

  /** An idle age counts while some active key's age is no greater. */
  ghost predicate Counts(p: Pool, age: nat) {
    exists key :: key in p.keys && p.keys[key].lastGrant <= age
  }

  ghost function Prune(p: Pool): Pool {
    p.(idleGrants := map key | key in p.idleGrants && Counts(p, p.idleGrants[key]) :: p.idleGrants[key])
  }

  predicate Idle(k: KeyState) {
    k.inUse == 0 && k.waiters == []
  }

  /** Drops a key that became idle, and keeps its age while that counts. */
  ghost function Forget(p: Pool, key: string): Pool
    requires key in p.keys
  {
    var k := p.keys[key];
    if !Idle(k) then p
    else Prune(p.(keys := p.keys - {key}, idleGrants := if k.lastGrant != 0 then p.idleGrants[key := k.lastGrant] else p.idleGrants))
  }

  // ----- The locked regions, before they dispatch -----

  function NewKey(p: Pool, key: string): KeyState {
    KeyState(0, if key in p.idleGrants then p.idleGrants[key] else 0, [])
  }

  function Enqueue(p: Pool, key: string): Pool {
    var t := p.arrivals + 1;
    var k := if key in p.keys then p.keys[key] else NewKey(p, key);
    p.(arrivals := t, queued := p.queued + 1,
       keys := p.keys[key := k.(waiters := k.waiters + [t])],
       idleGrants := if key in p.keys then p.idleGrants else p.idleGrants - {key},
       tickets := p.tickets[t := Ticket(key, Waiting)])
  }

  /** A ticket's slot goes back. */
  function Return(p: Pool, t: nat): Pool
    requires t in p.tickets && p.tickets[t].key in p.keys
  {
    var key := p.tickets[t].key;
    p.(inUse := p.inUse - 1,
       keys := p.keys[key := p.keys[key].(inUse := p.keys[key].inUse - 1)],
       tickets := p.tickets[t := Ticket(key, Over)])
  }

  function Without(waiters: seq<nat>, t: nat): seq<nat> {
    if waiters == [] then []
    else if waiters[0] == t then waiters[1..]
    else [waiters[0]] + Without(waiters[1..], t)
  }

  /** A waiter leaves its queue. */
  function Leave(p: Pool, t: nat): Pool
    requires t in p.tickets && p.tickets[t].key in p.keys
  {
    var key := p.tickets[t].key;
    p.(queued := p.queued - 1,
       keys := p.keys[key := p.keys[key].(waiters := Without(p.keys[key].waiters, t))],
       tickets := p.tickets[t := Ticket(key, Over)])
  }

  /** Every waiter of a key fails. */
  ghost function Fail(p: Pool, key: string): Pool
    requires key in p.keys
  {
    var waiters := p.keys[key].waiters;
    p.(queued := p.queued - |waiters|,
       keys := p.keys[key := p.keys[key].(waiters := [])],
       tickets := map t | t in p.tickets :: if t in waiters then Ticket(key, Failed) else p.tickets[t])
  }

  // ----- Sums over the keys -----

  function Part(k: KeyState, queued: bool): int {
    if queued then |k.waiters| else k.inUse
  }

  ghost function Sum(keys: map<string, KeyState>, queued: bool): int
    decreases |keys|
  {
    if keys == map[] then 0
    else
      var key :| key in keys;
      Part(keys[key], queued) + Sum(keys - {key}, queued)
  }

  lemma {:induction false} SumWithout(keys: map<string, KeyState>, queued: bool, key: string)
    requires key in keys
    ensures Sum(keys, queued) == Part(keys[key], queued) + Sum(keys - {key}, queued)
    decreases |keys|
  {
    hide Part;
    var first :| first in keys && Sum(keys, queued) == Part(keys[first], queued) + Sum(keys - {first}, queued);
    if first != key {
      SumWithout(keys - {first}, queued, key);
      SumWithout(keys - {key}, queued, first);
      assert keys - {first} - {key} == keys - {key} - {first};
    }
  }

  lemma {:induction false} SumUpdate(keys: map<string, KeyState>, queued: bool, key: string, k: KeyState)
    ensures Sum(keys[key := k], queued) == Sum(keys, queued) + Part(k, queued) - (if key in keys then Part(keys[key], queued) else 0)
  {
    hide Part, Sum;
    SumWithout(keys[key := k], queued, key);
    assert keys[key := k] - {key} == keys - {key};
    if key in keys {
      SumWithout(keys, queued, key);
    } else {
      assert keys - {key} == keys;
    }
  }

  lemma {:induction false} SumAtLeast(keys: map<string, KeyState>, queued: bool, key: string)
    requires forall k :: k in keys ==> Part(keys[k], queued) >= 0
    requires key in keys
    ensures 0 <= Part(keys[key], queued) <= Sum(keys, queued)
    decreases |keys|
  {
    hide Part;
    SumWithout(keys, queued, key);
    var rest := keys - {key};
    if rest == map[] {
    } else {
      var other :| other in rest;
      SumAtLeast(rest, queued, other);
    }
  }

  // ----- What holds throughout -----

  ghost predicate Increasing(s: seq<nat>) {
    forall i, j :: 0 <= i < j < |s| ==> s[i] < s[j]
  }

  ghost function GrantedTo(tickets: map<nat, Ticket>, key: string): set<nat> {
    set t | t in tickets && tickets[t] == Ticket(key, Granted)
  }

  /** The queues hold the waiting tickets in order of arrival. */
  ghost predicate Queues(p: Pool) {
    && (forall t :: t in p.tickets ==> 0 < t <= p.arrivals)
    && (forall t :: t in p.tickets && p.tickets[t].state.Waiting? ==> t in Waiters(p, p.tickets[t].key))
    && (forall key, t :: t in Waiters(p, key) ==> t in p.tickets && p.tickets[t] == Ticket(key, Waiting))
    && (forall key :: Increasing(Waiters(p, key)))
  }

  /** A key uses as many slots as it has granted tickets. */
  ghost predicate Holdings(p: Pool) {
    forall key :: InUse(p, key) == |GrantedTo(p.tickets, key)|
  }

  /** The age of a key's last grant, counted in grants; 0 for a key never granted. A
      pool that forgets nothing would order its keys by it. */
  function LastGrant(log: seq<Grant>, key: string): (age: nat)
    ensures age <= |log|
  {
    if log == [] then 0
    else if log[|log| - 1].key == key then |log|
    else LastGrant(log[..|log| - 1], key)
  }

  /** The grant age that the pool still has for a key, or 0. */
  function Retained(p: Pool, key: string): nat {
    if key in p.keys then p.keys[key].lastGrant
    else if key in p.idleGrants then p.idleGrants[key]
    else 0
  }

  /** A key whose age was forgotten was granted before every key whose age is kept. */
  ghost predicate ForgottenAreOlder(p: Pool) {
    forall forgotten, key :: Retained(p, forgotten) == 0 && Retained(p, key) > 0 ==> LastGrant(p.log, forgotten) < Retained(p, key)
  }

  /** A kept grant age is that of the key's last grant. */
  ghost predicate Aged(p: Pool) {
    && p.grants == |p.log|
    && (forall key :: Retained(p, key) > 0 ==> Retained(p, key) == LastGrant(p.log, key))
    && (forall key :: key in p.idleGrants ==> p.idleGrants[key] > 0 && key !in p.keys)
    && ForgottenAreOlder(p)
  }

  /** The totals are those of the keys. */
  ghost predicate Totalled(p: Pool) {
    p.inUse == Sum(p.keys, false) && p.queued == Sum(p.keys, true)
  }

  /** Each key is first in, first out: what was granted arrived before what was
      granted later and before what still waits. */
  ghost predicate InTurn(p: Pool) {
    && (forall i :: 0 <= i < |p.log| ==> p.log[i].ticket in p.tickets && p.tickets[p.log[i].ticket].key == p.log[i].key)
    && (forall i :: 0 <= i < |p.log| ==> !p.tickets[p.log[i].ticket].state.Waiting?)
    && (forall i, j :: 0 <= i < j < |p.log| && p.log[i].key == p.log[j].key ==> p.log[i].ticket < p.log[j].ticket)
    && (forall i, t :: 0 <= i < |p.log| && t in Waiters(p, p.log[i].key) ==> p.log[i].ticket < t)
  }

  ghost predicate Core(p: Pool) {
    Queues(p) && Holdings(p) && Aged(p) && Totalled(p) && InTurn(p)
  }

  /** No key is kept that has neither a slot nor a queue. */
  ghost predicate Active(p: Pool) {
    forall key :: key in p.keys ==> !Idle(p.keys[key])
  }

  /** No free slot coexists with a key that could take it. */
  ghost predicate Quiet(p: Pool) {
    p.inUse >= p.capacity || forall key :: !Eligible(p, key)
  }

  ghost predicate Pruned(p: Pool) {
    forall key :: key in p.idleGrants ==> Counts(p, p.idleGrants[key])
  }

  ghost predicate Valid(p: Pool) {
    Core(p) && Active(p) && Quiet(p) && Pruned(p)
  }
}
