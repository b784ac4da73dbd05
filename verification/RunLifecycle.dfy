/** The life of every run over all interleavings: each locked region of the registry,
    the slot pool, a queued run and the units is one step. */
module RunLifecycle {
  import opened Optional
  import opened RunRegistry
  import SlotState
  import opened SlotDispatch
  import opened SlotTickets

  /** Where a run is: it claims its job, waits for a slot, was granted one, prepares,
      scans, ends while it holds the slot, gave up the wait, gave the slot back, left
      the registry's queue, or is gone. */
  datatype Place = AtClaim | AtQueue | AtGrant | Prepares | Scans | Ends | GaveUp | GaveBack | LeftQueue | Gone

  /** A run whose context ended before it queued has no Acquire call, and its ticket is
      0. `listed` is set when the pool queued the run, so that the registry lists it;
      `started` and `canceled` are those of its wait. */
  datatype Run = Run(job: string, unit: string, manual: bool, place: Place, ticket: nat, listed: bool,
                     started: bool, canceled: bool, cancelRequested: bool)

  /** The process: the registry, the pool, every run, whose each Acquire call is, the
      queued runs that a cancellation found, and the paused units. */
  datatype System = System(registry: Registry, pool: SlotState.Pool, runs: map<nat, Run>, owners: map<nat, nat>,
                           found: set<nat>, paused: set<string>)

  datatype Step =
    | ReserveJob(job: string, token: string)
    | UnreserveJob(job: string, token: string)
    | ClaimJob(run: nat, job: string, unit: string, manual: bool)
    | EnterQueue(run: nat)
    | EndEarly(run: nat)
    | TakeGrant(run: nat)
    | TakeFailure(run: nat)
    | EndWait(run: nat)
    | StartQueued(run: nat)
    | RegisterScan(run: nat)
    | EndRun(run: nat)
    | GiveBack(run: nat)
    | LeaveQueue(run: nat)
    | UnclaimJob(run: nat)
    | FindQueued(job: string, unit: string)
    | CancelFound(run: nat)
    | CancelScan(run: nat, unit: string)
    | FailUnit(unit: string)
    | PauseUnit(unit: string)
    | EnableUnit(unit: string)
    | ResizePool(capacity: int, capFor: string -> int)

  predicate IsAt(s: System, run: nat, place: Place) {
    run in s.runs && s.runs[run].place == place
  }

  /** The state of a run's Acquire call, if it has one. */
  predicate TicketIs(s: System, run: nat, state: SlotState.TicketState) {
    run in s.runs && s.runs[run].ticket in s.pool.tickets && s.pool.tickets[s.runs[run].ticket].state == state
  }

  predicate Enabled(s: System, step: Step) {
    match step
    case ReserveJob(job, token) => token != ""
    case UnreserveJob(job, token) => token != ""
    case ClaimJob(r, job, unit, manual) => r !in s.runs && job != ""
    case EnterQueue(r) => IsAt(s, r, AtClaim)
    case EndEarly(r) => IsAt(s, r, AtClaim)
    case TakeGrant(r) => IsAt(s, r, AtQueue) && TicketIs(s, r, SlotState.Granted)
    case TakeFailure(r) => IsAt(s, r, AtQueue) && TicketIs(s, r, SlotState.Failed)
    case EndWait(r) => IsAt(s, r, AtQueue) && s.runs[r].ticket in s.pool.tickets
    case StartQueued(r) => IsAt(s, r, AtGrant)
    case RegisterScan(r) => IsAt(s, r, Prepares)
    case EndRun(r) => IsAt(s, r, Prepares) || IsAt(s, r, Scans)
    case GiveBack(r) => IsAt(s, r, Ends) && s.runs[r].ticket in s.pool.tickets
    case LeaveQueue(r) => IsAt(s, r, GaveUp) || IsAt(s, r, GaveBack)
    case UnclaimJob(r) => IsAt(s, r, LeftQueue)
    case CancelFound(r) => r in s.found && r in s.runs
    case CancelScan(r, unit) => r in s.registry.scans && r in s.runs && s.runs[r].unit == unit
    case _ => true
  }

  /** The run whose step it is. */
  function Mover(step: Step): Option<nat> {
    match step
    case EnterQueue(r) => Some(r)
    case EndEarly(r) => Some(r)
    case TakeGrant(r) => Some(r)
    case TakeFailure(r) => Some(r)
    case EndWait(r) => Some(r)
    case StartQueued(r) => Some(r)
    case RegisterScan(r) => Some(r)
    case EndRun(r) => Some(r)
    case GiveBack(r) => Some(r)
    case LeaveQueue(r) => Some(r)
    case UnclaimJob(r) => Some(r)
    case CancelFound(r) => Some(r)
    case CancelScan(r, _) => Some(r)
    case _ => None
  }

  /** The pool's operation that is part of a step. A context can end at any time, so a
      wait can too. */
  function PoolCall(s: System, step: Step): Option<Op>
    requires Enabled(s, step)
  {
    match step
    case EnterQueue(r) => Some(Acquire(s.runs[r].unit))
    case EndWait(r) => Some(Cancel(s.runs[r].ticket))
    case GiveBack(r) => Some(Release(s.runs[r].ticket))
    case FailUnit(unit) => Some(FailWaiters(unit))
    case ResizePool(capacity, capFor) => Some(SetCapacity(capacity, capFor))
    case _ => None
  }

  /** What a step does to the pool. */
  ghost function PoolAfter(s: System, step: Step): SlotState.Pool
    requires SlotState.Valid(s.pool) && Enabled(s, step)
  {
    match PoolCall(s, step)
    case Some(op) => Apply(s.pool, op)
    case None => s.pool
  }

  /** Whether a call that entered the queue still waits after the dispatch. */
  ghost predicate StaysQueued(s: System, r: nat)
    requires SlotState.Valid(s.pool) && IsAt(s, r, AtClaim)
  {
    var pool := PoolAfter(s, EnterQueue(r));
    s.pool.arrivals + 1 in pool.tickets && pool.tickets[s.pool.arrivals + 1].state.Waiting?
  }

  /** What a step does to its run. */
  ghost function RunAfter(s: System, step: Step): Run
    requires SlotState.Valid(s.pool) && Enabled(s, step) && Mover(step).Some?
  {
    var run := s.runs[Mover(step).value];
    match step
    case EnterQueue(r) => run.(place := AtQueue, ticket := s.pool.arrivals + 1, listed := StaysQueued(s, r))
    case EndEarly(_) => run.(place := LeftQueue)
    case TakeGrant(_) => run.(place := AtGrant)
    case TakeFailure(_) => run.(place := GaveUp)
    case EndWait(_) => run.(place := GaveUp)
    case StartQueued(_) => if run.canceled then run.(place := Ends) else run.(started := true, place := Prepares)
    case RegisterScan(_) => run.(place := Scans, cancelRequested := run.cancelRequested || run.unit in s.paused)
    case EndRun(_) => run.(place := Ends)
    case GiveBack(_) => run.(place := GaveBack)
    case LeaveQueue(_) => run.(place := LeftQueue)
    case UnclaimJob(_) => run.(place := Gone)
    case CancelFound(_) => if run.started then run else run.(canceled := true)
    case CancelScan(_, _) => run.(cancelRequested := true)
  }

  ghost function RunsAfter(s: System, step: Step): map<nat, Run>
    requires SlotState.Valid(s.pool) && Enabled(s, step)
  {
    match Mover(step)
    case Some(r) => s.runs[r := RunAfter(s, step)]
    case None =>
      match step {
        case ClaimJob(r, job, unit, manual) =>
          if s.registry.RefusesClaim(job, manual) then s.runs
          else s.runs[r := Run(job, unit, manual, AtClaim, 0, false, false, false, false)]
        case PauseUnit(unit) =>
          map r | r in s.runs ::
            if r in s.registry.scans && s.runs[r].unit == unit then s.runs[r].(cancelRequested := true) else s.runs[r]
        case _ => s.runs
      }
  }

  /** What a step does to the registry. */
  ghost function RegistryAfter(s: System, step: Step): Registry
    requires SlotState.Valid(s.pool) && Enabled(s, step)
  {
    match step
    case ReserveJob(job, token) => s.registry.Reserved(job, token)
    case UnreserveJob(job, token) => s.registry.Unreserved(job, token)
    case ClaimJob(r, job, unit, manual) => s.registry.Claimed(job, manual)
    case EnterQueue(r) => if StaysQueued(s, r) then s.registry.Enqueued(s.runs[r].job, r) else s.registry
    case RegisterScan(r) => s.registry.Started(s.runs[r].job, r, r)
    case EndRun(r) => if s.runs[r].place.Scans? then s.registry.Finished(s.runs[r].job, r) else s.registry
    case LeaveQueue(r) => if s.runs[r].listed then s.registry.Dequeued(s.runs[r].job, r) else s.registry
    case UnclaimJob(r) => s.registry.Unclaimed(s.runs[r].job)
    case _ => s.registry
  }

  function FoundAfter(s: System, step: Step): set<nat> {
    match step
    case FindQueued(job, unit) =>
      if s.registry.Of(job).queued.Some? then
        var r := s.registry.Of(job).queued.value;
        if r in s.runs && s.runs[r].unit == unit then s.found + {r} else s.found
      else s.found
    case _ => s.found
  }

  function PausedAfter(s: System, step: Step): set<string> {
    match step
    case PauseUnit(unit) => s.paused + {unit}
    case EnableUnit(unit) => s.paused - {unit}
    case _ => s.paused
  }

  ghost function Next(s: System, step: Step): System
    requires SlotState.Valid(s.pool) && Enabled(s, step)
  {
    System(RegistryAfter(s, step), PoolAfter(s, step), RunsAfter(s, step),
           if step.EnterQueue? then s.owners[s.pool.arrivals + 1 := step.run] else s.owners,
           FoundAfter(s, step), PausedAfter(s, step))
  }

  // ----- What holds in every state -----

  predicate Holds(s: System, r: nat) {
    r in s.runs && !s.runs[r].place.Gone?
  }

  /** The registry knows every claim. A reserved job is claimed by no scheduled run. */
  ghost predicate ClaimsKnown(s: System) {
    && s.registry.Tidy()
    && forall r :: Holds(s, r) ==>
         && s.runs[r].job != ""
         && s.registry.Of(s.runs[r].job).claimed
         && (s.registry.Of(s.runs[r].job).reservation != "" ==> s.runs[r].manual)
  }

  /** At most one run claims a job. */
  ghost predicate OneClaimEach(s: System) {
    forall a, b :: Holds(s, a) && Holds(s, b) && a != b ==> s.runs[a].job != s.runs[b].job
  }

  /** No claim outlives its run. */
  ghost predicate ClaimsOwned(s: System) {
    forall job :: s.registry.Of(job).claimed ==> Claimant(s, job)
  }

  ghost predicate Claimant(s: System, job: string) {
    exists r :: Holds(s, r) && s.runs[r].job == job
  }

  ghost predicate Claims(s: System) {
    ClaimsKnown(s) && OneClaimEach(s) && ClaimsOwned(s)
  }

  predicate Waits(place: Place) {
    place.AtQueue? || place.AtGrant? || place.Prepares? || place.GaveUp?
  }

  /** What the registry lists as queued is a run of the job that the pool queued. */
  ghost predicate ListsQueued(s: System) {
    forall job, r :: s.registry.Of(job).queued == Some(r) ==>
      && r in s.runs && s.runs[r].job == job && s.runs[r].listed
      && (Waits(s.runs[r].place) || s.runs[r].place.Ends? || s.runs[r].place.GaveBack?)
  }

  /** A run that the pool queued is listed until its scan starts or it gives up. */
  ghost predicate QueuedAreListed(s: System) {
    forall r :: r in s.runs ==>
      && (s.runs[r].listed && Waits(s.runs[r].place) ==> s.registry.Of(s.runs[r].job).queued == Some(r))
      && (s.runs[r].place.AtClaim? ==> !s.runs[r].listed)
  }

  ghost predicate Listed(s: System) {
    ListsQueued(s) && QueuedAreListed(s)
  }

  /** The registry's scans are those of the runs that scan. */
  ghost predicate ScansVisible(s: System) {
    forall r :: r in s.registry.scans <==> IsAt(s, r, Scans)
  }

  ghost predicate ScansRecorded(s: System) {
    && (forall job, r :: s.registry.Of(job).scanID == Some(r) ==> IsAt(s, r, Scans) && s.runs[r].job == job)
    && (forall r :: IsAt(s, r, Scans) ==> s.registry.Of(s.runs[r].job).scanID == Some(r))
  }

  ghost predicate Scanning(s: System) {
    ScansVisible(s) && ScansRecorded(s)
  }

  /** Each Acquire call is that of one run. */
  ghost predicate TicketsOwned(s: System) {
    && s.owners.Keys == s.pool.tickets.Keys
    && (forall t :: t in s.owners ==> t > 0 && s.owners[t] in s.runs && s.runs[s.owners[t]].ticket == t)
    && (forall r :: r in s.runs && s.runs[r].ticket > 0 ==> s.runs[r].ticket in s.owners && s.owners[s.runs[r].ticket] == r)
  }

  /** A run holds a slot from its grant until it gives it back; one that gave up or
      gave back its slot holds none, and one without a call never had one. */
  ghost predicate SlotsHeld(s: System) {
    forall r :: r in s.runs ==>
      if s.runs[r].ticket == 0 then Uncalled(s.runs[r].place)
      else s.runs[r].ticket in s.pool.tickets && SlotAt(s.runs[r].place, s.pool.tickets[s.runs[r].ticket].state)
  }

  predicate Uncalled(place: Place) {
    place.AtClaim? || place.LeftQueue? || place.Gone?
  }

  ghost predicate Slots(s: System) {
    TicketsOwned(s) && SlotsHeld(s)
  }

  predicate SlotAt(place: Place, state: SlotState.TicketState) {
    match place
    case AtClaim => false
    case AtQueue => !state.Over?
    case AtGrant => state.Granted?
    case Prepares => state.Granted?
    case Scans => state.Granted?
    case Ends => state.Granted?
    case _ => state.Over? || state.Failed?
  }

  /** A canceled wait is that of a run that has not started. */
  ghost predicate Canceled(s: System) {
    forall r :: r in s.runs ==> CanceledRun(s.runs[r])
  }

  predicate CanceledRun(run: Run) {
    && !(run.started && run.canceled)
    && (run.place.Prepares? || run.place.Scans? ==> run.started)
    && (run.place.AtClaim? || run.place.AtQueue? || run.place.AtGrant? ==> !run.started)
  }

  /** Every registered run of a paused unit has its cancellation requested. */
  ghost predicate Paused(s: System) {
    forall r :: r in s.registry.scans && r in s.runs && s.runs[r].unit in s.paused ==> s.runs[r].cancelRequested
  }

  ghost predicate Invariant(s: System) {
    && SlotState.Valid(s.pool)
    && Claims(s) && Listed(s) && Scanning(s) && Slots(s) && Canceled(s) && Paused(s)
  }

  function Start(capacity: int, capFor: string -> int): System {
    System(Registry(map[], map[]), Fresh(capacity, capFor), map[], map[], {}, {})
  }

  lemma StartHolds(capacity: int, capFor: string -> int)
    ensures Invariant(Start(capacity, capFor))
  {
    FreshIsValid(capacity, capFor);
  }

  // ----- Every step keeps it -----

  lemma KeepsPool(s: System, step: Step)
    requires SlotState.Valid(s.pool) && Enabled(s, step)
    ensures SlotState.Valid(PoolAfter(s, step))
  {
    hide SlotState.Valid, Apply;
    match step
    case EnterQueue(r) => ApplyKeeps(s.pool, Acquire(s.runs[r].unit));
    case EndWait(r) => ApplyKeeps(s.pool, Cancel(s.runs[r].ticket));
    case GiveBack(r) => ApplyKeeps(s.pool, Release(s.runs[r].ticket));
    case FailUnit(unit) => ApplyKeeps(s.pool, FailWaiters(unit));
    case ResizePool(capacity, capFor) => ApplyKeeps(s.pool, SetCapacity(capacity, capFor));
    case _ =>
  }

  /** Where a step leaves a run. */
  function PlaceAfter(s: System, step: Step, r: nat): Place
    requires r in s.runs
  {
    var place := s.runs[r].place;
    match step
    case EnterQueue(x) => if x == r then AtQueue else place
    case EndEarly(x) => if x == r then LeftQueue else place
    case TakeGrant(x) => if x == r then AtGrant else place
    case TakeFailure(x) => if x == r then GaveUp else place
    case EndWait(x) => if x == r then GaveUp else place
    case StartQueued(x) => if x == r then (if s.runs[r].canceled then Ends else Prepares) else place
    case RegisterScan(x) => if x == r then Scans else place
    case EndRun(x) => if x == r then Ends else place
    case GiveBack(x) => if x == r then GaveBack else place
    case LeaveQueue(x) => if x == r then LeftQueue else place
    case UnclaimJob(x) => if x == r then Gone else place
    case _ => place
  }

  /** A run that a step claims its job for. */
  predicate Claiming(s: System, step: Step, r: nat) {
    step.ClaimJob? && r == step.run && !s.registry.RefusesClaim(step.job, step.manual)
  }

  /** A run before a step and after it. */
  ghost predicate Becomes(s: System, step: Step, r: nat, was: Run, now: Run)
    requires SlotState.Valid(s.pool) && r in s.runs && (step.EnterQueue? ==> Enabled(s, step))
  {
    && now.place == PlaceAfter(s, step, r)
    && now.ticket == (if step == EnterQueue(r) then s.pool.arrivals + 1 else was.ticket)
    && now.listed == (if step == EnterQueue(r) then StaysQueued(s, r) else was.listed)
    && now.started == (was.started || (step == StartQueued(r) && !was.canceled))
    && now.canceled == (was.canceled || (step == CancelFound(r) && !was.started))
    && now.job == was.job && now.manual == was.manual && now.unit == was.unit
  }

  /** A run's own step. */
  lemma RunMoves(s: System, step: Step, r: nat)
    requires SlotState.Valid(s.pool) && Enabled(s, step) && Mover(step) == Some(r)
    ensures r in s.runs && RunsAfter(s, step) == s.runs[r := RunAfter(s, step)]
    ensures Becomes(s, step, r, s.runs[r], RunAfter(s, step))
  {
    hide SlotState.Valid, StaysQueued, PoolAfter, RegistryAfter;
  }

  lemma StaysInPlace(s: System, step: Step, r: nat)
    requires r in s.runs && Mover(step) != Some(r)
    ensures PlaceAfter(s, step, r) == s.runs[r].place
  {
  }

  /** Another step leaves a run as it is, but for a cancellation that a pause requests. */
  lemma RunIsLeft(s: System, step: Step, r: nat)
    requires SlotState.Valid(s.pool) && Enabled(s, step) && Mover(step) != Some(r) && r in s.runs
    ensures !Claiming(s, step, r) && r in RunsAfter(s, step)
    ensures RunsAfter(s, step)[r].(cancelRequested := s.runs[r].cancelRequested) == s.runs[r]
  {
    hide SlotState.Valid, RunAfter, Registry.RefusesClaim;
  }

  /** A run that is not there yet comes by its claim. */
  lemma RunIsNew(s: System, step: Step, r: nat)
    requires SlotState.Valid(s.pool) && Enabled(s, step) && r !in s.runs
    ensures r in RunsAfter(s, step) <==> Claiming(s, step, r)
    ensures Claiming(s, step, r) ==>
              RunsAfter(s, step)[r] == Run(step.job, step.unit, step.manual, AtClaim, 0, false, false, false, false)
  {
    hide SlotState.Valid, RunAfter, Registry.RefusesClaim;
  }

  lemma LeftBecomes(s: System, step: Step, r: nat, now: Run)
    requires SlotState.Valid(s.pool) && Enabled(s, step) && Mover(step) != Some(r) && r in s.runs
    requires now.(cancelRequested := s.runs[r].cancelRequested) == s.runs[r]
    ensures Becomes(s, step, r, s.runs[r], now)
  {
    hide SlotState.Valid, StaysQueued, PlaceAfter, Enabled;
    StaysInPlace(s, step, r);
  }

  lemma RunStays(s: System, step: Step, r: nat)
    requires SlotState.Valid(s.pool) && Enabled(s, step) && Mover(step) != Some(r)
    ensures r in RunsAfter(s, step) <==> r in s.runs || Claiming(s, step, r)
    ensures r in s.runs ==>
              && !Claiming(s, step, r)
              && RunsAfter(s, step)[r].(cancelRequested := s.runs[r].cancelRequested) == s.runs[r]
              && Becomes(s, step, r, s.runs[r], RunsAfter(s, step)[r])
    ensures r !in s.runs && Claiming(s, step, r) ==>
              RunsAfter(s, step)[r] == Run(step.job, step.unit, step.manual, AtClaim, 0, false, false, false, false)
  {
    hide SlotState.Valid, RunsAfter, Enabled, Becomes, Claiming, Mover;
    if r in s.runs {
      RunIsLeft(s, step, r);
      LeftBecomes(s, step, r, RunsAfter(s, step)[r]);
    } else {
      RunIsNew(s, step, r);
    }
  }

  /** A run as a step leaves it. */
  lemma RunChanges(s: System, step: Step, r: nat)
    requires SlotState.Valid(s.pool) && Enabled(s, step)
    ensures r in RunsAfter(s, step) <==> r in s.runs || Claiming(s, step, r)
    ensures r in s.runs ==> !Claiming(s, step, r) && Becomes(s, step, r, s.runs[r], RunsAfter(s, step)[r])
    ensures r !in s.runs && Claiming(s, step, r) ==>
              RunsAfter(s, step)[r] == Run(step.job, step.unit, step.manual, AtClaim, 0, false, false, false, false)
  {
    hide SlotState.Valid, StaysQueued, PoolAfter, RegistryAfter, RunsAfter, RunAfter, Enabled, Becomes, Registry.RefusesClaim;
    if Mover(step) == Some(r) {
      RunMoves(s, step, r);
    } else {
      RunStays(s, step, r);
    }
  }

  lemma KeepsCanceled(s: System, step: Step)
    requires SlotState.Valid(s.pool) && Enabled(s, step) && Canceled(s)
    ensures Canceled(Next(s, step))
  {
    hide SlotState.Valid, StaysQueued, RegistryAfter, PoolAfter, RunsAfter, RunAfter, PlaceAfter;
    var q := Next(s, step);
    forall r | r in q.runs
      ensures CanceledRun(q.runs[r])
    {
      RunChanges(s, step, r);
      if r in s.runs {
        CanceledPlace(s, step, r);
      }
    }
  }

  lemma CanceledPlace(s: System, step: Step, r: nat)
    requires Enabled(s, step) && r in s.runs && CanceledRun(s.runs[r])
    ensures var was, place := s.runs[r], PlaceAfter(s, step, r);
            && (place.Prepares? || place.Scans? ==> was.started || (step == StartQueued(r) && !was.canceled))
            && (place.AtClaim? || place.AtQueue? || place.AtGrant? ==> !was.started && step != StartQueued(r))
            && (step == StartQueued(r) ==> !was.started)
  {
  }

  /** What is recorded for a job after a step. */
  ghost function RecordAfter(s: System, step: Step, job: string): JobRun
    requires SlotState.Valid(s.pool) && Enabled(s, step)
  {
    var e := s.registry.Of(job);
    match step
    case ReserveJob(j, token) => if j == job && !s.registry.RefusesReservation(job) then e.(reservation := token) else e
    case UnreserveJob(j, token) => if j == job && e.reservation == token then e.(reservation := "") else e
    case ClaimJob(_, j, _, manual) => if j == job && !s.registry.RefusesClaim(job, manual) then e.(claimed := true) else e
    case EnterQueue(r) => if s.runs[r].job == job && StaysQueued(s, r) then e.(queued := Some(r)) else e
    case RegisterScan(r) => if s.runs[r].job == job && job != "" then e.(queued := None, scanID := Some(r)) else e
    case EndRun(r) => if s.runs[r].job == job && s.runs[r].place.Scans? && e.scanID == Some(r) then e.(scanID := None) else e
    case LeaveQueue(r) => if s.runs[r].job == job && s.runs[r].listed && e.queued == Some(r) then e.(queued := None) else e
    case UnclaimJob(r) => if s.runs[r].job == job then e.(claimed := false) else e
    case _ => e
  }

  lemma RegistryChanges(s: System, step: Step)
    requires SlotState.Valid(s.pool) && Enabled(s, step) && s.registry.Tidy()
    ensures RegistryAfter(s, step).Tidy()
    ensures forall job :: RegistryAfter(s, step).Of(job) == RecordAfter(s, step, job)
    ensures RegistryAfter(s, step).scans
            == match step {
                 case RegisterScan(r) => s.registry.scans[r := r]
                 case EndRun(r) => if s.runs[r].place.Scans? then s.registry.scans - {r} else s.registry.scans
                 case _ => s.registry.scans
               }
  {
    hide SlotState.Valid, StaysQueued, Registry.With, Registry.Tidy, Registry.Of;
    var g := s.registry;
    match step
    case ReserveJob(j, token) => WithRecords(g, j, g.Of(j).(reservation := token));
    case UnreserveJob(j, token) => WithRecords(g, j, g.Of(j).(reservation := ""));
    case ClaimJob(_, j, _, manual) => WithRecords(g, j, g.Of(j).(claimed := true));
    case EnterQueue(r) => WithRecords(g, s.runs[r].job, g.Of(s.runs[r].job).(queued := Some(r)));
    case RegisterScan(r) =>
      var job := s.runs[r].job;
      WithRecords(g, job, g.Of(job).(queued := None, scanID := Some(r)));
      ScansApart(g, g.scans[r := r]);
      ScansApart(g.With(job, g.Of(job).(queued := None, scanID := Some(r))), g.scans[r := r]);
    case EndRun(r) =>
      var job := s.runs[r].job;
      WithRecords(g, job, g.Of(job).(scanID := None));
      ScansApart(g, g.scans - {r});
      ScansApart(g.With(job, g.Of(job).(scanID := None)), g.scans - {r});
    case LeaveQueue(r) => WithRecords(g, s.runs[r].job, g.Of(s.runs[r].job).(queued := None));
    case UnclaimJob(r) => WithRecords(g, s.runs[r].job, g.Of(s.runs[r].job).(claimed := false));
    case _ =>
  }

  lemma ScansApart(g: Registry, scans: map<nat, nat>)
    ensures g.(scans := scans).Tidy() == g.Tidy()
    ensures forall job :: g.(scans := scans).Of(job) == g.Of(job)
  {
  }

  /** Which runs hold a claim after a step. */
  lemma HoldersChange(s: System, step: Step)
    requires SlotState.Valid(s.pool) && Enabled(s, step)
    ensures forall r :: Holds(Next(s, step), r) ==>
              || (Holds(s, r) && step != UnclaimJob(r) && RunsAfter(s, step)[r].job == s.runs[r].job && RunsAfter(s, step)[r].manual == s.runs[r].manual)
              || (Claiming(s, step, r) && RunsAfter(s, step)[r].job == step.job && RunsAfter(s, step)[r].manual == step.manual)
    ensures forall r :: Holds(s, r) && step != UnclaimJob(r) ==> Holds(Next(s, step), r) && RunsAfter(s, step)[r].job == s.runs[r].job
    ensures step.ClaimJob? && Claiming(s, step, step.run) ==> Holds(Next(s, step), step.run) && RunsAfter(s, step)[step.run].job == step.job
  {
    hide SlotState.Valid, StaysQueued, RegistryAfter, PoolAfter, RunsAfter, RunAfter, Registry.RefusesClaim;
    forall r
      ensures Holds(Next(s, step), r) ==>
                || (Holds(s, r) && step != UnclaimJob(r) && RunsAfter(s, step)[r].job == s.runs[r].job && RunsAfter(s, step)[r].manual == s.runs[r].manual)
                || (Claiming(s, step, r) && RunsAfter(s, step)[r].job == step.job && RunsAfter(s, step)[r].manual == step.manual)
      ensures Holds(s, r) && step != UnclaimJob(r) ==> Holds(Next(s, step), r) && RunsAfter(s, step)[r].job == s.runs[r].job
      ensures Claiming(s, step, r) ==> Holds(Next(s, step), r) && RunsAfter(s, step)[r].job == step.job
    {
      RunChanges(s, step, r);
    }
  }

  lemma KeepsClaimsKnown(s: System, step: Step)
    requires SlotState.Valid(s.pool) && Enabled(s, step) && Claims(s)
    ensures ClaimsKnown(Next(s, step))
  {
    hide SlotState.Valid, StaysQueued, RegistryAfter, PoolAfter, RunsAfter, RunAfter, PlaceAfter, RecordAfter, Registry.Of, Registry.Tidy, Holds;
    HoldersChange(s, step);
    RegistryChanges(s, step);
    HoldersAreIn(s);
    HoldersAreIn(Next(s, step));
    var q := Next(s, step);
    forall r | Holds(q, r)
      ensures q.runs[r].job != "" && q.registry.Of(q.runs[r].job).claimed
      ensures q.registry.Of(q.runs[r].job).reservation != "" ==> q.runs[r].manual
    {
      if Holds(s, r) {
        OnlyRunOfJob(s, step, r);
        HeldRecord(s, step, r);
      } else {
        ClaimedRecord(s, step, r);
      }
    }
  }

  /** A held claim stays recorded, and only a web-triggered run's claim lets the job
      be reserved. */
  lemma HeldRecord(s: System, step: Step, r: nat)
    requires SlotState.Valid(s.pool) && Enabled(s, step) && Holds(s, r) && step != UnclaimJob(r)
    requires s.runs[r].job != "" && s.registry.Of(s.runs[r].job).claimed
    requires s.registry.Of(s.runs[r].job).reservation != "" ==> s.runs[r].manual
    requires var x := Mover(step);
             x.Some? && x.value in s.runs && x.value != r && s.runs[x.value].job == s.runs[r].job ==>
               s.runs[r].place.Gone? || s.runs[x.value].place.Gone?
    ensures var e := RecordAfter(s, step, s.runs[r].job);
            e.claimed && (e.reservation != "" ==> s.runs[r].manual)
  {
    hide SlotState.Valid, StaysQueued, Registry.Of;
  }

  lemma ClaimedRecord(s: System, step: Step, r: nat)
    requires SlotState.Valid(s.pool) && Enabled(s, step) && Claiming(s, step, r)
    ensures step.job != ""
    ensures var e := RecordAfter(s, step, step.job);
            e.claimed && (e.reservation != "" ==> step.manual)
  {
    hide SlotState.Valid, StaysQueued;
  }

  lemma HoldersAreIn(s: System)
    ensures forall r :: Holds(s, r) ==> r in s.runs
    ensures forall r :: Holds(s, r) <==> r in s.runs && !s.runs[r].place.Gone?
  {
  }

  lemma KeepsOneClaim(s: System, step: Step)
    requires SlotState.Valid(s.pool) && Enabled(s, step) && Claims(s)
    ensures OneClaimEach(Next(s, step))
  {
    hide SlotState.Valid, StaysQueued, RegistryAfter, PoolAfter, RunsAfter, RunAfter, PlaceAfter, Registry.Of, Registry.Tidy, Holds, ClaimsOwned;
    HoldersChange(s, step);
    HoldersAreIn(s);
    HoldersAreIn(Next(s, step));
  }

  lemma KeepsClaimsOwned(s: System, step: Step)
    requires SlotState.Valid(s.pool) && Enabled(s, step) && Claims(s)
    ensures ClaimsOwned(Next(s, step))
  {
    hide SlotState.Valid, StaysQueued, RegistryAfter, PoolAfter, RunsAfter, RunAfter, PlaceAfter, Registry.Of, Registry.Tidy, Holds;
    HoldersChange(s, step);
    RegistryChanges(s, step);
    HoldersAreIn(s);
    HoldersAreIn(Next(s, step));
    var q := Next(s, step);
    forall job | q.registry.Of(job).claimed
      ensures Claimant(q, job)
    {
      if s.registry.Of(job).claimed {
        var r :| Holds(s, r) && s.runs[r].job == job;
        assert Holds(q, r) && q.runs[r].job == job;
      } else {
        assert Holds(q, step.run) && q.runs[step.run].job == job;
      }
    }
  }

  lemma KeepsListsQueued(s: System, step: Step)
    requires SlotState.Valid(s.pool) && Enabled(s, step) && Claims(s) && Listed(s)
    ensures ListsQueued(Next(s, step))
  {
    hide SlotState.Valid, RegistryAfter, PoolAfter, RunsAfter, Registry.Of, Enabled, Claims, Listed;
    var q := Next(s, step);
    forall job, r | q.registry.Of(job).queued == Some(r)
      ensures r in q.runs && q.runs[r].job == job && q.runs[r].listed
      ensures Waits(q.runs[r].place) || q.runs[r].place.Ends? || q.runs[r].place.GaveBack?
    {
      QueuedIsListed(s, step, job, r);
    }
  }

  lemma QueuedIsListed(s: System, step: Step, job: string, r: nat)
    requires SlotState.Valid(s.pool) && Enabled(s, step) && Claims(s) && Listed(s)
    requires Next(s, step).registry.Of(job).queued == Some(r)
    ensures var q := Next(s, step);
            && r in q.runs && q.runs[r].job == job && q.runs[r].listed
            && (Waits(q.runs[r].place) || q.runs[r].place.Ends? || q.runs[r].place.GaveBack?)
  {
    hide SlotState.Valid, StaysQueued, RegistryAfter, PoolAfter, RunsAfter, RunAfter, PlaceAfter, Registry.Of, Registry.Tidy;
    RegistryChanges(s, step);
    RunChanges(s, step, r);
    if s.registry.Of(job).queued == Some(r) {
      ListedPlace(s, step, r, job);
    } else {
      assert step == EnterQueue(r) && StaysQueued(s, r) && s.runs[r].job == job;
      EnteredPlace(s, r);
    }
  }

  lemma EnteredPlace(s: System, r: nat)
    requires r in s.runs
    ensures PlaceAfter(s, EnterQueue(r), r).AtQueue?
  {
  }

  /** A listed run stays in a place where it may be listed until it is not listed. */
  lemma ListedPlace(s: System, step: Step, r: nat, job: string)
    requires SlotState.Valid(s.pool) && Enabled(s, step) && r in s.runs && s.runs[r].job == job && job != "" && s.runs[r].listed
    requires s.registry.Of(job).queued == Some(r) && RecordAfter(s, step, job).queued == Some(r)
    requires Waits(s.runs[r].place) || s.runs[r].place.Ends? || s.runs[r].place.GaveBack?
    ensures var place := PlaceAfter(s, step, r);
            (Waits(place) || place.Ends? || place.GaveBack?) && step != EnterQueue(r)
  {
    hide SlotState.Valid, StaysQueued;
  }

  lemma KeepsQueuedListed(s: System, step: Step)
    requires SlotState.Valid(s.pool) && Enabled(s, step) && Claims(s) && Listed(s)
    ensures QueuedAreListed(Next(s, step))
  {
    hide SlotState.Valid, StaysQueued, RegistryAfter, PoolAfter, RunsAfter, RunAfter, PlaceAfter, Registry.Of, Registry.Tidy, RecordAfter;
    RegistryChanges(s, step);
    var q := Next(s, step);
    forall r | r in q.runs
      ensures q.runs[r].listed && Waits(q.runs[r].place) ==> q.registry.Of(q.runs[r].job).queued == Some(r)
      ensures q.runs[r].place.AtClaim? ==> !q.runs[r].listed
    {
      RunChanges(s, step, r);
      if r in s.runs {
        OnlyRunOfJob(s, step, r);
        WaitsListed(s, step, r);
      }
    }
  }

  /** Another run's step is not of this run's job while this run holds its claim. */
  lemma OnlyRunOfJob(s: System, step: Step, r: nat)
    requires Enabled(s, step) && OneClaimEach(s) && r in s.runs
    ensures var x := Mover(step);
            x.Some? && x.value in s.runs && x.value != r && s.runs[x.value].job == s.runs[r].job ==>
              s.runs[r].place.Gone? || s.runs[x.value].place.Gone?
  {
  }

  lemma WaitsListed(s: System, step: Step, r: nat)
    requires SlotState.Valid(s.pool) && Enabled(s, step) && r in s.runs
    requires s.runs[r].listed && Waits(s.runs[r].place) ==> s.registry.Of(s.runs[r].job).queued == Some(r)
    requires s.runs[r].place.AtClaim? ==> !s.runs[r].listed
    requires var x := Mover(step);
             x.Some? && x.value in s.runs && x.value != r && s.runs[x.value].job == s.runs[r].job ==>
               s.runs[r].place.Gone? || s.runs[x.value].place.Gone?
    ensures var listed := if step == EnterQueue(r) then StaysQueued(s, r) else s.runs[r].listed;
            && (listed && Waits(PlaceAfter(s, step, r)) ==> RecordAfter(s, step, s.runs[r].job).queued == Some(r))
            && (PlaceAfter(s, step, r).AtClaim? ==> !listed)
  {
    hide SlotState.Valid, StaysQueued;
  }

  lemma KeepsScansVisible(s: System, step: Step)
    requires SlotState.Valid(s.pool) && Enabled(s, step) && Claims(s) && Scanning(s)
    ensures ScansVisible(Next(s, step))
  {
    hide SlotState.Valid, StaysQueued, RegistryAfter, PoolAfter, RunsAfter, RunAfter, PlaceAfter, Registry.Of, Registry.Tidy, IsAt, OneClaimEach, ClaimsOwned;
    ScansChange(s, step);
    RegistryChanges(s, step);
    StepsAt(s, step);
  }

  lemma StepsAt(s: System, step: Step)
    requires Enabled(s, step)
    ensures step.EndRun? ==> step.run in s.runs && (s.runs[step.run].place.Scans? <==> IsAt(s, step.run, Scans))
  {
  }

  /** Which runs scan after a step. */
  lemma ScansChange(s: System, step: Step)
    requires SlotState.Valid(s.pool) && Enabled(s, step)
    ensures forall r :: r in s.runs ==> r in RunsAfter(s, step) && RunsAfter(s, step)[r].job == s.runs[r].job
    ensures forall r :: IsAt(Next(s, step), r, Scans) <==> (IsAt(s, r, Scans) && step != EndRun(r)) || step == RegisterScan(r)
  {
    hide SlotState.Valid, StaysQueued, RegistryAfter, PoolAfter, RunsAfter, RunAfter;
    forall r
      ensures r in s.runs ==> r in RunsAfter(s, step) && RunsAfter(s, step)[r].job == s.runs[r].job
      ensures IsAt(Next(s, step), r, Scans) <==> (IsAt(s, r, Scans) && step != EndRun(r)) || step == RegisterScan(r)
    {
      RunChanges(s, step, r);
    }
  }

  /** The cancellations that are requested after a step. */
  lemma CancellationChanges(s: System, step: Step, r: nat)
    requires SlotState.Valid(s.pool) && Enabled(s, step) && r in s.runs
    ensures r in RunsAfter(s, step) && RunsAfter(s, step)[r].unit == s.runs[r].unit
    ensures s.runs[r].cancelRequested ==> RunsAfter(s, step)[r].cancelRequested
    ensures step == PauseUnit(s.runs[r].unit) && r in s.registry.scans ==> RunsAfter(s, step)[r].cancelRequested
    ensures step == RegisterScan(r) && s.runs[r].unit in s.paused ==> RunsAfter(s, step)[r].cancelRequested
    ensures RunsAfter(s, step)[r].cancelRequested && !s.runs[r].cancelRequested ==>
              || (step == CancelScan(r, s.runs[r].unit) && r in s.registry.scans)
              || (step == PauseUnit(s.runs[r].unit) && r in s.registry.scans)
              || (step == RegisterScan(r) && s.runs[r].unit in s.paused)
  {
    hide SlotState.Valid, StaysQueued;
  }

  lemma KeepsScansRecorded(s: System, step: Step)
    requires SlotState.Valid(s.pool) && Enabled(s, step) && Claims(s) && Scanning(s)
    ensures ScansRecorded(Next(s, step))
  {
    hide SlotState.Valid, StaysQueued, RegistryAfter, PoolAfter, RunsAfter, RunAfter, RecordAfter, Registry.Of, Registry.Tidy, IsAt, ClaimsOwned, ScansVisible;
    ScansChange(s, step);
    RegistryChanges(s, step);
    AtIsIn(s);
    var q := Next(s, step);
    forall job, r | q.registry.Of(job).scanID == Some(r)
      ensures IsAt(q, r, Scans) && q.runs[r].job == job
    {
      RecordedScan(s, step, job, r);
    }
    forall r | IsAt(q, r, Scans)
      ensures q.registry.Of(q.runs[r].job).scanID == Some(r)
    {
      if IsAt(s, r, Scans) {
        assert s.registry.Of(s.runs[r].job).scanID == Some(r);
        OnlyRunOfJob(s, step, r);
        StaysRecorded(s, step, r);
      } else {
        StartsRecorded(s, r);
      }
    }
  }

  lemma RecordedScan(s: System, step: Step, job: string, r: nat)
    requires SlotState.Valid(s.pool) && Enabled(s, step) && RecordAfter(s, step, job).scanID == Some(r)
    requires s.registry.Of(job).scanID == Some(r) ==> IsAt(s, r, Scans) && s.runs[r].job == job
    ensures (IsAt(s, r, Scans) && s.runs[r].job == job && step != EndRun(r))
            || (step == RegisterScan(r) && r in s.runs && s.runs[r].job == job)
  {
    hide SlotState.Valid, StaysQueued, Registry.Of;
  }

  lemma StaysRecorded(s: System, step: Step, r: nat)
    requires SlotState.Valid(s.pool) && Enabled(s, step) && IsAt(s, r, Scans) && step != EndRun(r) && step != RegisterScan(r)
    requires s.registry.Of(s.runs[r].job).scanID == Some(r)
    requires var x := Mover(step);
             x.Some? && x.value in s.runs && x.value != r && s.runs[x.value].job == s.runs[r].job ==>
               s.runs[r].place.Gone? || s.runs[x.value].place.Gone?
    ensures RecordAfter(s, step, s.runs[r].job).scanID == Some(r)
  {
    hide SlotState.Valid, StaysQueued, Registry.Of;
  }

  lemma StartsRecorded(s: System, r: nat)
    requires SlotState.Valid(s.pool) && Enabled(s, RegisterScan(r)) && Claims(s)
    ensures RecordAfter(s, RegisterScan(r), s.runs[r].job).scanID == Some(r)
  {
    hide SlotState.Valid, StaysQueued, OneClaimEach, ClaimsOwned;
    assert Holds(s, r);
  }

  lemma AtIsIn(s: System)
    ensures forall r, place :: IsAt(s, r, place) ==> r in s.runs && s.runs[r].place == place
    ensures forall r, place :: r in s.runs && s.runs[r].place == place ==> IsAt(s, r, place)
  {
  }

  lemma KeepsPaused(s: System, step: Step)
    requires SlotState.Valid(s.pool) && Enabled(s, step) && Claims(s) && Scanning(s) && Paused(s)
    ensures Paused(Next(s, step))
  {
    hide SlotState.Valid, StaysQueued, RegistryAfter, PoolAfter, RunsAfter, Registry.Of, Registry.Tidy, ScansRecorded, Claims;
    RegistryScans(s, step);
    var q := Next(s, step);
    forall r | r in q.registry.scans && r in q.runs && q.runs[r].unit in q.paused
      ensures q.runs[r].cancelRequested
    {
      assert r in s.registry.scans || step == RegisterScan(r);
      CancellationChanges(s, step, r);
    }
  }

  lemma RegistryScans(s: System, step: Step)
    requires SlotState.Valid(s.pool) && Enabled(s, step) && Claims(s)
    ensures forall r :: r in RegistryAfter(s, step).scans ==> r in s.registry.scans || step == RegisterScan(r)
  {
    hide SlotState.Valid, StaysQueued, RegistryAfter, RecordAfter;
    RegistryChanges(s, step);
  }

  /** The Acquire call that a step cancels or releases. */
  predicate Ended(s: System, step: Step, t: nat) {
    match step
    case EndWait(r) => r in s.runs && s.runs[r].ticket == t
    case GiveBack(r) => r in s.runs && s.runs[r].ticket == t
    case _ => false
  }

  lemma PoolMoves(s: System, step: Step)
    requires SlotState.Valid(s.pool) && Enabled(s, step)
    ensures var q := PoolAfter(s, step);
            && q.tickets.Keys == s.pool.tickets.Keys + (if step.EnterQueue? then {s.pool.arrivals + 1} else {})
            && (forall t :: t in s.pool.tickets ==> Moves(s.pool.tickets[t], q.tickets[t], Ended(s, step, t)))
            && (step.EnterQueue? ==> s.pool.arrivals + 1 !in s.pool.tickets && !q.tickets[s.pool.arrivals + 1].state.Over?)
            && (step.EndWait? ==> q.tickets[s.runs[step.run].ticket].state.Over? || q.tickets[s.runs[step.run].ticket].state.Failed?)
            && (step.GiveBack? && s.pool.tickets[s.runs[step.run].ticket].state.Granted? ==> q.tickets[s.runs[step.run].ticket].state.Over?)
  {
    hide SlotState.Valid, Apply, PoolCall, Ended, Targets, Enabled;
    match PoolCall(s, step) {
      case Some(op) =>
        CallOf(s, step, op);
        TicketMoves(s.pool, op);
      case None =>
        NoCall(s, step);
    }
  }

  /** How a step's operation on the pool goes with the step. */
  lemma CallOf(s: System, step: Step, op: Op)
    requires Enabled(s, step) && PoolCall(s, step) == Some(op)
    ensures Allowed(s.pool, op)
    ensures forall t :: Targets(op, t) == Ended(s, step, t)
    ensures op.Acquire? <==> step.EnterQueue?
    ensures step.EndWait? ==> step.run in s.runs && op == Cancel(s.runs[step.run].ticket)
    ensures step.GiveBack? ==> step.run in s.runs && op == Release(s.runs[step.run].ticket)
  {
  }

  lemma NoCall(s: System, step: Step)
    requires Enabled(s, step) && PoolCall(s, step) == None
    ensures !step.EnterQueue? && !step.EndWait? && !step.GiveBack?
  {
  }

  lemma PoolCalls(s: System, step: Step)
    requires SlotState.Valid(s.pool) && Enabled(s, step)
    ensures PoolAfter(s, step).tickets.Keys == s.pool.tickets.Keys + (if step.EnterQueue? then {s.pool.arrivals + 1} else {})
    ensures step.EnterQueue? ==> s.pool.arrivals + 1 !in s.pool.tickets
  {
    hide SlotState.Valid, PoolAfter, Enabled, Moves;
    PoolMoves(s, step);
  }

  lemma KeepsTicketsOwned(s: System, step: Step)
    requires SlotState.Valid(s.pool) && Enabled(s, step) && Slots(s)
    ensures TicketsOwned(Next(s, step))
  {
    hide SlotState.Valid, StaysQueued, RegistryAfter, PoolAfter, RunsAfter, RunAfter, PlaceAfter, SlotsHeld, Enabled, Slots;
    var q := Next(s, step);
    OwnersAreCalls(s, step);
    forall t | t in q.owners
      ensures t > 0 && q.owners[t] in q.runs && q.runs[q.owners[t]].ticket == t
    {
      OwnerOf(s, step, t);
    }
    forall r | r in q.runs && q.runs[r].ticket > 0
      ensures q.runs[r].ticket in q.owners && q.owners[q.runs[r].ticket] == r
    {
      TicketOf(s, step, r);
    }
  }

  lemma OwnersAreCalls(s: System, step: Step)
    requires SlotState.Valid(s.pool) && Enabled(s, step) && Slots(s)
    ensures Next(s, step).owners.Keys == Next(s, step).pool.tickets.Keys
  {
    hide SlotState.Valid, StaysQueued, RegistryAfter, PoolAfter, RunsAfter, RunAfter, PlaceAfter, SlotsHeld, Enabled;
    PoolCalls(s, step);
  }

  lemma OwnerOf(s: System, step: Step, t: nat)
    requires SlotState.Valid(s.pool) && Enabled(s, step) && Slots(s) && t in Next(s, step).owners
    ensures var q := Next(s, step); t > 0 && q.owners[t] in q.runs && q.runs[q.owners[t]].ticket == t
  {
    hide SlotState.Valid, StaysQueued, RegistryAfter, PoolAfter, RunsAfter, RunAfter, PlaceAfter, SlotsHeld;
    PoolCalls(s, step);
    RunChanges(s, step, Next(s, step).owners[t]);
    OnlyEntersFromClaim(s, step, Next(s, step).owners[t]);
  }

  lemma TicketOf(s: System, step: Step, r: nat)
    requires SlotState.Valid(s.pool) && Enabled(s, step) && Slots(s)
    requires var q := Next(s, step); r in q.runs && q.runs[r].ticket > 0
    ensures var q := Next(s, step); q.runs[r].ticket in q.owners && q.owners[q.runs[r].ticket] == r
  {
    hide SlotState.Valid, StaysQueued, RegistryAfter, PoolAfter, RunsAfter, RunAfter, PlaceAfter, SlotsHeld;
    PoolCalls(s, step);
    RunChanges(s, step, r);
    OnlyEntersFromClaim(s, step, r);
  }

  lemma OnlyEntersFromClaim(s: System, step: Step, r: nat)
    requires Enabled(s, step) && SlotsHeld(s)
    ensures step == EnterQueue(r) ==> r in s.runs && s.runs[r].place.AtClaim? && s.runs[r].ticket == 0
  {
  }

  lemma KeepsSlotsHeld(s: System, step: Step)
    requires SlotState.Valid(s.pool) && Enabled(s, step) && Slots(s)
    ensures SlotsHeld(Next(s, step))
  {
    hide SlotState.Valid, StaysQueued, RegistryAfter, PoolAfter, RunsAfter, RunAfter, PlaceAfter, SlotAt, Uncalled;
    var q := Next(s, step);
    forall r | r in q.runs
      ensures if q.runs[r].ticket == 0 then Uncalled(q.runs[r].place)
              else q.runs[r].ticket in q.pool.tickets && SlotAt(q.runs[r].place, q.pool.tickets[q.runs[r].ticket].state)
    {
      RunChanges(s, step, r);
      if r in s.runs {
        OwnCall(s, step, r);
        SlotMoves(s, step, r);
      } else {
        StartsUncalled();
      }
    }
  }

  lemma StartsUncalled()
    ensures Uncalled(AtClaim)
  {
  }

  /** A step ends the call of its own run only. */
  lemma OwnCall(s: System, step: Step, r: nat)
    requires Slots(s) && r in s.runs
    ensures s.runs[r].ticket > 0 && Enabled(s, step) && Ended(s, step, s.runs[r].ticket) ==> step == EndWait(r) || step == GiveBack(r)
  {
  }

  lemma SlotMoves(s: System, step: Step, r: nat)
    requires SlotState.Valid(s.pool) && Enabled(s, step) && r in s.runs
    requires if s.runs[r].ticket == 0 then Uncalled(s.runs[r].place)
             else s.runs[r].ticket in s.pool.tickets && SlotAt(s.runs[r].place, s.pool.tickets[s.runs[r].ticket].state)
    requires s.runs[r].ticket > 0 && Ended(s, step, s.runs[r].ticket) ==> step == EndWait(r) || step == GiveBack(r)
    ensures var t := if step == EnterQueue(r) then s.pool.arrivals + 1 else s.runs[r].ticket;
            if t == 0 then Uncalled(PlaceAfter(s, step, r))
            else t in PoolAfter(s, step).tickets && SlotAt(PlaceAfter(s, step, r), PoolAfter(s, step).tickets[t].state)
  {
    hide SlotState.Valid, PoolAfter;
    if step == EnterQueue(r) {
      CallEnters(s, r);
    } else if s.runs[r].ticket > 0 {
      CallMoves(s, step, s.runs[r].ticket);
    }
  }

  lemma CallEnters(s: System, r: nat)
    requires SlotState.Valid(s.pool) && Enabled(s, EnterQueue(r))
    ensures var q, t := PoolAfter(s, EnterQueue(r)), s.pool.arrivals + 1;
            t in q.tickets && !q.tickets[t].state.Over?
  {
    hide SlotState.Valid, PoolAfter, Moves;
    PoolMoves(s, EnterQueue(r));
  }

  lemma CallMoves(s: System, step: Step, t: nat)
    requires SlotState.Valid(s.pool) && Enabled(s, step) && t in s.pool.tickets
    ensures var q := PoolAfter(s, step);
            && t in q.tickets
            && Moves(s.pool.tickets[t], q.tickets[t], Ended(s, step, t))
            && (step.EndWait? && s.runs[step.run].ticket == t ==> q.tickets[t].state.Over? || q.tickets[t].state.Failed?)
            && (step.GiveBack? && s.runs[step.run].ticket == t && s.pool.tickets[t].state.Granted? ==> q.tickets[t].state.Over?)
  {
    hide SlotState.Valid, PoolAfter, Moves, Ended;
    PoolMoves(s, step);
  }

  /** Every step keeps all of it. */
  lemma NextHolds(s: System, step: Step)
    requires Invariant(s) && Enabled(s, step)
    ensures Invariant(Next(s, step))
  {
    hide SlotState.Valid, Enabled, Next, Claims, ClaimsKnown, OneClaimEach, ClaimsOwned, Listed, ListsQueued, QueuedAreListed,
         Scanning, ScansVisible, ScansRecorded, Slots, TicketsOwned, SlotsHeld, Canceled, Paused;
    NextPoolIs(s, step);
    KeepsPool(s, step);
    KeepsClaimsKnown(s, step);
    KeepsOneClaim(s, step);
    KeepsClaimsOwned(s, step);
    KeepsListsQueued(s, step);
    KeepsQueuedListed(s, step);
    KeepsScansVisible(s, step);
    KeepsScansRecorded(s, step);
    KeepsTicketsOwned(s, step);
    KeepsSlotsHeld(s, step);
    KeepsCanceled(s, step);
    KeepsPaused(s, step);
    Together(Next(s, step));
  }

  lemma NextPoolIs(s: System, step: Step)
    requires SlotState.Valid(s.pool) && Enabled(s, step)
    ensures Next(s, step).pool == PoolAfter(s, step)
  {
  }

  lemma Together(s: System)
    ensures ClaimsKnown(s) && OneClaimEach(s) && ClaimsOwned(s) ==> Claims(s)
    ensures ListsQueued(s) && QueuedAreListed(s) ==> Listed(s)
    ensures ScansVisible(s) && ScansRecorded(s) ==> Scanning(s)
    ensures TicketsOwned(s) && SlotsHeld(s) ==> Slots(s)
  {
  }

  // ----- Over whole runs -----

  /** The states that steps lead through from an empty process. */
  ghost predicate Trace(states: seq<System>, steps: seq<Step>) {
    && |states| == |steps| + 1
    && (exists capacity, capFor :: states[0] == Start(capacity, capFor))
    && forall i :: 0 <= i < |steps| ==>
         SlotState.Valid(states[i].pool) && Enabled(states[i], steps[i]) && states[i + 1] == Next(states[i], steps[i])
  }

  /** In every state of every interleaving: at most one run claims a job and no
      scheduled run claims a reserved one; entries of the registry are not empty; a
      run that gave up or ended holds no slot; and every registered run of a paused
      unit has its cancellation requested. */
  lemma {:induction false} TraceHolds(states: seq<System>, steps: seq<Step>, n: nat)
    requires Trace(states, steps) && n <= |steps|
    ensures Invariant(states[n])
  {
    hide Invariant, Enabled, Next, SlotState.Valid;
    if n == 0 {
      var capacity, capFor :| states[0] == Start(capacity, capFor);
      StartHolds(capacity, capFor);
    } else {
      TraceHolds(states, steps, n - 1);
      NextHolds(states[n - 1], steps[n - 1]);
    }
  }

  /** A cancellation that succeeds finds a run that has not started. */
  lemma CancelSucceeds(s: System, r: nat)
    requires Invariant(s) && Enabled(s, CancelFound(r))
    ensures Next(s, CancelFound(r)).runs[r].canceled <==> !s.runs[r].started
  {
    hide SlotState.Valid, Claims, Listed, Scanning, Slots, Paused;
  }

  lemma StaysCanceled(s: System, step: Step, r: nat)
    requires SlotState.Valid(s.pool) && Enabled(s, step) && r in s.runs && s.runs[r].canceled
    ensures r in Next(s, step).runs && Next(s, step).runs[r].canceled
  {
    hide SlotState.Valid, StaysQueued, RegistryAfter, PoolAfter, RunsAfter, RunAfter;
    RunChanges(s, step, r);
  }

  /** A run whose queued wait was canceled never prepares or scans in any later
      state, and when it is done it keeps no slot. */
  lemma {:induction false} CanceledNeverStarts(states: seq<System>, steps: seq<Step>, r: nat, i: nat, n: nat)
    requires Trace(states, steps) && i <= n <= |steps|
    requires r in states[i].runs && states[i].runs[r].canceled
    ensures r in states[n].runs && states[n].runs[r].canceled && !states[n].runs[r].started
    ensures !states[n].runs[r].place.Prepares? && !states[n].runs[r].place.Scans?
    ensures states[n].runs[r].place in {GaveUp, GaveBack, LeftQueue, Gone} ==> !TicketIs(states[n], r, SlotState.Granted)
    decreases n
  {
    hide Enabled, Next, SlotState.Valid, Claims, Listed, Scanning, Paused;
    TraceHolds(states, steps, n);
    if i >= n {
    } else {
      CanceledNeverStarts(states, steps, r, i, n - 1);
      StaysCanceled(states[n - 1], steps[n - 1], r);
    }
  }

  /** A run asks for a slot of its unit, and is listed as queued just when it has to
      wait for one. */
  lemma ListedWhenItWaits(s: System, r: nat)
    requires SlotState.Valid(s.pool) && Enabled(s, EnterQueue(r))
    ensures var q, t := Next(s, EnterQueue(r)), s.pool.arrivals + 1;
            && r in q.runs && q.runs[r].ticket == t && t in q.pool.tickets && q.pool.tickets[t].key == s.runs[r].unit
            && (q.runs[r].listed <==> q.pool.tickets[t].state.Waiting?)
            && q.registry.Of(s.runs[r].job).queued
               == if q.pool.tickets[t].state.Waiting? then Some(r) else s.registry.Of(s.runs[r].job).queued
  {
    hide SlotState.Valid, Apply;
    TicketMoves(s.pool, Acquire(s.runs[r].unit));
  }

  /** Failing a unit's waiting runs fails each of their calls and no other call. */
  lemma UnitFails(s: System, unit: string, t: nat)
    requires SlotState.Valid(s.pool) && t in s.pool.tickets
    ensures var q := Next(s, FailUnit(unit)).pool;
            && t in q.tickets && q.tickets[t].key == s.pool.tickets[t].key
            && q.tickets[t].state
               == if s.pool.tickets[t].state.Waiting? && s.pool.tickets[t].key == unit then SlotState.Failed else s.pool.tickets[t].state
  {
    hide SlotState.Valid, Apply;
    FailEndsTheWaits(s.pool, unit);
  }

  // ----- Whose request a cancellation is -----

  lemma NameStays(s: System, step: Step, r: nat)
    requires SlotState.Valid(s.pool) && Enabled(s, step) && r in s.runs
    ensures r in Next(s, step).runs && Next(s, step).runs[r].job == s.runs[r].job && Next(s, step).runs[r].unit == s.runs[r].unit
  {
    hide SlotState.Valid, StaysQueued, RegistryAfter, PoolAfter, RunsAfter, RunAfter, PlaceAfter;
    RunChanges(s, step, r);
  }

  lemma {:induction false} NameStaysOn(states: seq<System>, steps: seq<Step>, r: nat, i: nat, n: nat)
    requires Trace(states, steps) && i <= n <= |steps| && r in states[i].runs
    ensures r in states[n].runs && states[n].runs[r].job == states[i].runs[r].job && states[n].runs[r].unit == states[i].runs[r].unit
    decreases n
  {
    hide Enabled, Next, SlotState.Valid;
    if i == n {
    } else {
      NameStaysOn(states, steps, r, i, n - 1);
      NameStays(states[n - 1], steps[n - 1], r);
    }
  }

  /** At a step, a request of the run's own unit found it queued for its job. */
  ghost predicate FoundAt(states: seq<System>, steps: seq<Step>, i: nat, r: nat)
    requires |states| == |steps| + 1
  {
    && i < |steps| && r in states[i].runs
    && steps[i] == FindQueued(states[i].runs[r].job, states[i].runs[r].unit)
    && states[i].registry.Of(states[i].runs[r].job).queued == Some(r)
  }

  lemma FindsOwn(s: System, step: Step, r: nat)
    requires SlotState.Valid(s.pool) && Enabled(s, step) && ListsQueued(s)
    requires r in Next(s, step).found && r !in s.found
    ensures r in s.runs && step == FindQueued(s.runs[r].job, s.runs[r].unit) && s.registry.Of(s.runs[r].job).queued == Some(r)
  {
    hide SlotState.Valid, RegistryAfter, PoolAfter, RunsAfter, Enabled, Registry.Of;
  }

  lemma {:induction false} FoundWasQueued(states: seq<System>, steps: seq<Step>, r: nat, n: nat) returns (i: nat)
    requires Trace(states, steps) && n <= |steps| && r in states[n].found
    ensures i < n && FoundAt(states, steps, i, r)
  {
    hide Enabled, Next, SlotState.Valid, Claims, Scanning, Slots, Canceled, Paused, ListsQueued, QueuedAreListed, FoundAt;
    if n == 0 {
      assert false;
    } else if r in states[n - 1].found {
      i := FoundWasQueued(states, steps, r, n - 1);
    } else {
      TraceHolds(states, steps, n - 1);
      FindsOwn(states[n - 1], steps[n - 1], r);
      i := n - 1;
      FoundNow(states, steps, i, r);
    }
  }

  lemma FoundNow(states: seq<System>, steps: seq<Step>, i: nat, r: nat)
    requires |states| == |steps| + 1 && i < |steps| && r in states[i].runs
    requires steps[i] == FindQueued(states[i].runs[r].job, states[i].runs[r].unit)
    requires states[i].registry.Of(states[i].runs[r].job).queued == Some(r)
    ensures FoundAt(states, steps, i, r)
  {
  }

  lemma CanceledByFound(s: System, step: Step, r: nat)
    requires SlotState.Valid(s.pool) && Enabled(s, step) && r in Next(s, step).runs && Next(s, step).runs[r].canceled
    ensures (r in s.runs && s.runs[r].canceled) || (step == CancelFound(r) && r in s.found)
  {
    hide SlotState.Valid, StaysQueued, RegistryAfter, PoolAfter, RunsAfter, RunAfter, PlaceAfter;
    RunChanges(s, step, r);
  }

  /** A canceled wait was canceled by a request for the run's own job and of its own
      unit, which found the run queued. */
  lemma {:induction false} CanceledByItsUnit(states: seq<System>, steps: seq<Step>, r: nat, n: nat) returns (i: nat)
    requires Trace(states, steps) && n <= |steps| && r in states[n].runs && states[n].runs[r].canceled
    ensures i < n && steps[i] == FindQueued(states[n].runs[r].job, states[n].runs[r].unit)
    ensures states[i].registry.Of(states[n].runs[r].job).queued == Some(r)
  {
    hide Enabled, Next, SlotState.Valid, Registry.Of;
    if n == 0 {
      assert false;
    } else {
      CanceledByFound(states[n - 1], steps[n - 1], r);
      if r in states[n - 1].runs && states[n - 1].runs[r].canceled {
        i := CanceledByItsUnit(states, steps, r, n - 1);
        NameStays(states[n - 1], steps[n - 1], r);
      } else {
        i := FoundWasQueued(states, steps, r, n - 1);
        NameStaysOn(states, steps, r, i, n);
      }
    }
  }

  /** A request finds the queued run of its job exactly when the run is of its unit,
      and can then cancel it. */
  lemma FindsQueuedRun(s: System, job: string, unit: string, r: nat)
    requires SlotState.Valid(s.pool) && ListsQueued(s) && s.registry.Of(job).queued == Some(r) && r !in s.found
    ensures r in s.runs
    ensures var q := s.(found := if s.runs[r].unit == unit then s.found + {r} else s.found);
            Next(s, FindQueued(job, unit)) == q && (Enabled(q, CancelFound(r)) <==> s.runs[r].unit == unit)
  {
    hide SlotState.Valid, Registry.Of;
  }

  /** The unit was paused at step j and not enabled from then until step i. */
  ghost predicate PausedSince(steps: seq<Step>, unit: string, j: nat, i: nat) {
    j < i <= |steps| && steps[j] == PauseUnit(unit) && forall k :: j < k < i ==> steps[k] != EnableUnit(unit)
  }

  lemma {:induction false} PausedWasSince(states: seq<System>, steps: seq<Step>, unit: string, n: nat) returns (j: nat)
    requires Trace(states, steps) && n <= |steps| && unit in states[n].paused
    ensures PausedSince(steps, unit, j, n)
  {
    hide Enabled, SlotState.Valid, RegistryAfter, PoolAfter, RunsAfter, FoundAfter;
    if n == 0 {
      assert false;
    } else if steps[n - 1] == PauseUnit(unit) {
      j := n - 1;
    } else {
      j := PausedWasSince(states, steps, unit, n - 1);
    }
  }

  lemma RequestChanges(s: System, step: Step, r: nat)
    requires SlotState.Valid(s.pool) && Enabled(s, step) && r in Next(s, step).runs && Next(s, step).runs[r].cancelRequested
    requires !(r in s.runs && s.runs[r].cancelRequested)
    ensures r in s.runs
    ensures || (step == CancelScan(r, s.runs[r].unit) && r in s.registry.scans)
            || (step == PauseUnit(s.runs[r].unit) && r in s.registry.scans)
            || (step == RegisterScan(r) && s.runs[r].unit in s.paused)
  {
    hide SlotState.Valid, StaysQueued, RegistryAfter, PoolAfter, RunsAfter, RunAfter, PlaceAfter;
    RunChanges(s, step, r);
    if r in s.runs {
      CancellationChanges(s, step, r);
    }
  }

  /** A scan's cancellation is requested only by its own unit, by a pause of that unit
      while the scan is registered, or by registering while the unit is paused. */
  lemma {:induction false} RequestedByItsUnit(states: seq<System>, steps: seq<Step>, r: nat, n: nat) returns (i: nat, j: nat)
    requires Trace(states, steps) && n <= |steps| && r in states[n].runs && states[n].runs[r].cancelRequested
    ensures i < n
    ensures var unit := states[n].runs[r].unit;
            || ((steps[i] == CancelScan(r, unit) || steps[i] == PauseUnit(unit)) && r in states[i].registry.scans)
            || (steps[i] == RegisterScan(r) && PausedSince(steps, unit, j, i))
  {
    hide Enabled, Next, SlotState.Valid, PausedSince;
    i, j := 0, 0;
    if n == 0 {
      assert false;
    } else if r in states[n - 1].runs && states[n - 1].runs[r].cancelRequested {
      i, j := RequestedByItsUnit(states, steps, r, n - 1);
      NameStays(states[n - 1], steps[n - 1], r);
    } else {
      i := n - 1;
      RequestChanges(states[i], steps[i], r);
      NameStays(states[i], steps[i], r);
      if steps[i] == RegisterScan(r) {
        j := PausedWasSince(states, steps, states[i].runs[r].unit, i);
      }
    }
  }
}
