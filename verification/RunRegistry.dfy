/** Which runs a process has claimed, queued and started, job by job. */
module RunRegistry {
  import opened Optional

  /** A job's entry: the token of an accepted web-triggered run, whether a run claims
      the job, the run that waits for a slot, and the scan that runs. Runs and scans
      are named by number. */
  datatype JobRun = JobRun(reservation: string, claimed: bool, queued: Option<nat>, scanID: Option<nat>) {
    predicate Empty() {
      reservation == "" && !claimed && queued.None? && scanID.None?
    }
  }

  const NO_ENTRY := JobRun("", false, None, None)

  datatype Registry = Registry(jobs: map<string, JobRun>, scans: map<nat, nat>) {

    /** What is recorded for a job; a job without an entry has nothing recorded. */
    function Of(job: string): JobRun {
      if job in jobs then jobs[job] else NO_ENTRY
    }

    /** An entry exists only while something is recorded. */
    ghost predicate Tidy() {
      forall job :: job in jobs ==> !jobs[job].Empty()
    }

    /** The record with one job's entry replaced. */
    function With(job: string, e: JobRun): Registry {
      this.(jobs := if e.Empty() then jobs - {job} else jobs[job := e])
    }

    /** Whether a web-triggered run is refused. */
    predicate RefusesReservation(job: string) {
      Of(job).reservation != "" || Of(job).claimed
    }

    /** Whether a run is refused; an accepted web-triggered run refuses only
        scheduled ones. */
    predicate RefusesClaim(job: string, manual: bool) {
      Of(job).claimed || (!manual && Of(job).reservation != "")
    }

    function Reserved(job: string, token: string): Registry {
      if RefusesReservation(job) then this else With(job, Of(job).(reservation := token))
    }

    function Unreserved(job: string, token: string): Registry {
      if Of(job).reservation == token then With(job, Of(job).(reservation := "")) else this
    }

    function Claimed(job: string, manual: bool): Registry {
      if RefusesClaim(job, manual) then this else With(job, Of(job).(claimed := true))
    }

    function Unclaimed(job: string): Registry {
      With(job, Of(job).(claimed := false))
    }

    function Enqueued(job: string, run: nat): Registry {
      With(job, Of(job).(queued := Some(run)))
    }

    function Dequeued(job: string, run: nat): Registry {
      if Of(job).queued == Some(run) then With(job, Of(job).(queued := None)) else this
    }

    function Started(job: string, scanID: nat, run: nat): Registry {
      var recorded := if job == "" then this else With(job, Of(job).(queued := None, scanID := Some(scanID)));
      recorded.(scans := scans[scanID := run])
    }

    function Finished(job: string, scanID: nat): Registry {
      var recorded := if Of(job).scanID == Some(scanID) then With(job, Of(job).(scanID := None)) else this;
      recorded.(scans := scans - {scanID})
    }
  }

  /** Replacing an entry changes what is recorded for that job only, and leaves no
      empty entry behind. */
  lemma WithRecords(r: Registry, job: string, e: JobRun)
    requires r.Tidy()
    ensures r.With(job, e).Tidy() && r.With(job, e).scans == r.scans
    ensures forall other :: r.With(job, e).Of(other) == if other == job then e else r.Of(other)
  {
  }

  /** After a change, a job has a new record and every other job its old one. */
  ghost predicate Replaced(before: Registry, after: Registry, job: string, e: JobRun) {
    after.Of(job) == e && forall other :: other != job ==> after.Of(other) == before.Of(other)
  }

  /** A tidy record is determined by what is recorded for each job. */
  lemma TidyIsUnique(a: Registry, b: Registry)
    requires a.Tidy() && b.Tidy() && a.scans == b.scans && forall job :: a.Of(job) == b.Of(job)
    ensures a == b
  {
    forall job
      ensures job in a.jobs <==> job in b.jobs
    {
      assert a.Of(job) == b.Of(job);
    }
    forall job | job in a.jobs
      ensures a.jobs[job] == b.jobs[job]
    {
      assert a.Of(job) == b.Of(job);
    }
    assert a.jobs == b.jobs;
  }

  /** The registry. Each method is one region under its lock. */
  class RunRegistry {
    var jobs: map<string, JobRun>
    var scans: map<nat, nat>

    ghost function Record(): Registry
      reads this
    {
      Registry(jobs, scans)
    }

    ghost predicate Valid()
      reads this
    {
      Record().Tidy()
    }

    constructor ()
      ensures Valid() && Record() == Registry(map[], map[])
    {
      jobs, scans := map[], map[];
    }

    method Entry(job: string) returns (e: JobRun)
      modifies this`jobs
      ensures e == old(Record()).Of(job) && jobs == old(jobs)[job := e]
    {
      if job !in jobs {
        jobs := jobs[job := NO_ENTRY];
      }
      return jobs[job];
    }

    /** An entry that records nothing any more goes. */
    method TidyEntry(job: string)
      requires forall other :: other in jobs && other != job ==> !jobs[other].Empty()
      modifies this`jobs
      ensures Valid() && forall other :: Record().Of(other) == old(Record()).Of(other)
    {
      if job in jobs && jobs[job].Empty() {
        jobs := jobs - {job};
      }
    }

    /** Keeps the job for a run that was triggered by hand, unless another holds it. */
    method Reserve(job: string, token: string) returns (busy: bool)
      requires Valid() && token != ""
      modifies this
      ensures Valid()
      ensures Record() == old(Record()).Reserved(job, token)
      ensures var e := old(Record()).Of(job);
              && (busy <==> e.reservation != "" || e.claimed)
              && scans == old(scans)
              && Replaced(old(Record()), Record(), job, if busy then e else e.(reservation := token))
    {
      ghost var before := Record();
      WithRecords(before, job, before.Of(job).(reservation := token));
      var e := Entry(job);
      if e.reservation != "" || e.claimed {
        TidyEntry(job);
        TidyIsUnique(before, Record());
        return true;
      }
      jobs := jobs[job := e.(reservation := token)];
      return false;
    }

    /** Ends the reservation if the token still holds it. */
    method Unreserve(job: string, token: string)
      requires Valid() && token != ""
      modifies this
      ensures Valid()
      ensures Record() == old(Record()).Unreserved(job, token)
      ensures var e := old(Record()).Of(job);
              scans == old(scans) && Replaced(old(Record()), Record(), job, if e.reservation == token then e.(reservation := "") else e)
    {
      ghost var before := Record();
      if job in jobs && jobs[job].reservation == token {
        ghost var e := jobs[job];
        WithRecords(before, job, e.(reservation := ""));
        jobs := jobs[job := jobs[job].(reservation := "")];
        TidyEntry(job);
        TidyIsUnique(before.With(job, e.(reservation := "")), Record());
      }
    }

    /** Claims the job for a run, unless a run claims it or, for a scheduled run, a
        web-triggered run reserved it. */
    method Claim(job: string, manual: bool) returns (busy: bool)
      requires Valid()
      modifies this
      ensures Valid()
      ensures Record() == old(Record()).Claimed(job, manual)
      ensures var e := old(Record()).Of(job);
              && (busy <==> e.claimed || (!manual && e.reservation != ""))
              && scans == old(scans)
              && Replaced(old(Record()), Record(), job, if busy then e else e.(claimed := true))
    {
      ghost var before := Record();
      WithRecords(before, job, before.Of(job).(claimed := true));
      var e := Entry(job);
      if e.claimed || (!manual && e.reservation != "") {
        TidyEntry(job);
        TidyIsUnique(before, Record());
        return true;
      }
      jobs := jobs[job := e.(claimed := true)];
      return false;
    }

    method Unclaim(job: string)
      requires Valid()
      modifies this
      ensures Valid() && Record() == old(Record()).Unclaimed(job)
      ensures scans == old(scans) && Replaced(old(Record()), Record(), job, old(Record()).Of(job).(claimed := false))
    {
      ghost var before := Record();
      ghost var e := before.Of(job);
      WithRecords(before, job, e.(claimed := false));
      if job in jobs {
        jobs := jobs[job := jobs[job].(claimed := false)];
        TidyEntry(job);
      }
      TidyIsUnique(before.With(job, e.(claimed := false)), Record());
    }

    method Enqueue(job: string, run: nat)
      requires Valid()
      modifies this
      ensures Valid() && Record() == old(Record()).Enqueued(job, run)
      ensures scans == old(scans) && Replaced(old(Record()), Record(), job, old(Record()).Of(job).(queued := Some(run)))
    {
      var e := Entry(job);
      jobs := jobs[job := e.(queued := Some(run))];
    }

    /** Ends the wait if it is still this run's. */
    method Dequeue(job: string, run: nat)
      requires Valid()
      modifies this
      ensures Valid() && Record() == old(Record()).Dequeued(job, run)
      ensures var e := old(Record()).Of(job);
              scans == old(scans) && Replaced(old(Record()), Record(), job, if e.queued == Some(run) then e.(queued := None) else e)
    {
      ghost var before := Record();
      if job in jobs && jobs[job].queued == Some(run) {
        ghost var e := jobs[job];
        WithRecords(before, job, e.(queued := None));
        jobs := jobs[job := jobs[job].(queued := None)];
        TidyEntry(job);
        TidyIsUnique(before.With(job, e.(queued := None)), Record());
      }
    }

    /** Turns a queued run into a visible scan at once. */
    method Start(job: string, scanID: nat, run: nat)
      requires Valid()
      modifies this
      ensures Valid() && Record() == old(Record()).Started(job, scanID, run)
      ensures scans == old(scans)[scanID := run]
      ensures var e := old(Record()).Of(job);
              Replaced(old(Record()), Record(), job, if job == "" then e else e.(queued := None, scanID := Some(scanID)))
    {
      scans := scans[scanID := run];
      if job == "" {
        return;
      }
      var e := Entry(job);
      jobs := jobs[job := e.(queued := None, scanID := Some(scanID))];
    }

    method Finish(job: string, scanID: nat)
      requires Valid()
      modifies this
      ensures Valid() && Record() == old(Record()).Finished(job, scanID)
      ensures scans == old(scans) - {scanID}
      ensures var e := old(Record()).Of(job);
              Replaced(old(Record()), Record(), job, if e.scanID == Some(scanID) then e.(scanID := None) else e)
    {
      ghost var before := Record();
      scans := scans - {scanID};
      if job in jobs && jobs[job].scanID == Some(scanID) {
        ghost var e := jobs[job];
        WithRecords(before, job, e.(scanID := None));
        jobs := jobs[job := jobs[job].(scanID := None)];
        TidyEntry(job);
        TidyIsUnique(before.With(job, e.(scanID := None)).(scans := scans), Record());
      }
    }

    /** The run that waits for a slot, if one does. */
    method QueuedRun(job: string) returns (queued: Option<nat>)
      ensures queued == if job in jobs then jobs[job].queued else None
    {
      return if job in jobs then jobs[job].queued else None;
    }
  }
}
