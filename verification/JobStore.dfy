/**
 The journal's operations as its callers run them, one at a time: a read, then the
 guarded update of `Journal`, on a store whose jobs, rows and clock are fields.
 `ClaimJob` is the loop over the scanned rows.
 */
module JobStore {
  import opened Wrappers
  import opened Jobs
  import opened Journal
  import opened JournalSafety
  import opened JournalLeases
  import opened JournalRuns
  import opened JournalRetries

  datatype StoreError = NotFound | Invalid | ScopeDenied | Lost | Stale

  // ---- What the claim loop computes ----------------------------------------------

  /** The claim of one scanned row, read and committed at once. */
  function TakeFlight(worker: string, j: Job, now: nat): Flight {
    match Choose(j, now)
    case Take(until) => Taking(worker, j, until, now, [])
    case _ => Expiring(worker, j, [])
  }

  /** Try the rows in order: expire, skip, or take the first that can be taken. */
  function ClaimRows(db: Db, worker: string, todo: seq<Job>): (Option<Job>, Db)
    decreases |todo|
  {
    if todo == [] then (None, db)
    else
      var j := todo[0];
      var f := TakeFlight(worker, j, db.now);
      if Choose(j, db.now).Skip? then ClaimRows(db, worker, todo[1..])
      else
        var db' := db.(jobs := CommitJobs(db, f));
        if f.Taking? && j.id in db.jobs && Updated(db, db.jobs[j.id], f).Some? then
          (Some(Updated(db, db.jobs[j.id], f).value), db')
        else ClaimRows(db', worker, todo[1..])
  }

  /**
   The record a failure leaves: pending again after the backoff when the error may be
   retried, attempts remain and the deadline is ahead, else failed for the first of the
   three that is missing; the attempt is ended with the error, progress stays.
   */
  predicate FailedOrRetried(j': Job, j: Job, now: nat, e: JobError) {
    var late, spent := j.expiresAt.Some? && j.expiresAt.value <= now, j.attempts >= j.budget.maxAttempts;
    var ended := j.(error := Some(e), leaseUntil := None, owner := None,
                    history := CloseHistory(j.history, now, Some(e.message)));
    if e.retryable && !spent && !late then
      j' == ended.(state := Pending, notBefore := Some(NowPlus(now, Backoff(j.budget, j.attempts))), reason := None,
                   slot := Live(j.dedup), completedAt := None)
    else
      j' == ended.(state := JobState.Failed, notBefore := None, slot := Tombstone(j.id), completedAt := Some(now),
                   reason := Some(if late then "deadline exceeded"
                                  else if spent then "attempt budget exhausted" else "non-retryable failure"))
  }

  class Store {
    var jobs: map<string, Job>
    var rows: Rows
    var now: nat

    ghost function State(): Db
      reads this
    {
      Db(jobs, rows, now)
    }

    constructor (rows: Rows, now: nat)
      ensures State() == Db(map[], rows, now)
    {
      this.jobs := map[];
      this.rows := rows;
      this.now := now;
    }

    /**
     The insert in one transaction; when its slot was taken, a second query looks for the
     live job that holds it, in whatever state `left` the others have left by then.
     */
    method EnqueueJob(id: string, req: Request, left: Db) returns (r: Enqueued)
      requires JobsSound(jobs) && LiveUnique(jobs) && id !in jobs
      requires JobsSound(left.jobs) && LiveUnique(left.jobs)
      modifies this
      ensures var before := old(State());
        if ValidRequest(req) && Insert(before, id, req) == Err(SlotTaken) then
          State() == left && r == Replay(left, req)
        else (r, State()) == Enqueue(before, id, req)
      ensures JobsSound(jobs) && LiveUnique(jobs)
    {
      if !ValidRequest(req) {
        return Rejected(InvalidShape);
      }
      var inserted := Insert(Db(jobs, rows, now), id, req);
      match inserted {
        case Ok(db) =>
          InsertKeeps(State(), id, req);
          jobs := db.jobs;
          return Created(jobs[id]);
        case Err(SlotTaken) =>
          jobs, rows, now := left.jobs, left.rows, left.now;
          r := LookUp(req);
        case Err(e) =>
          return Rejected(e);
      }
    }

    /** The query for the live job of an intent whose insert was refused. */
    method LookUp(req: Request) returns (r: Enqueued)
      requires JobsSound(jobs) && LiveUnique(jobs)
      ensures r == Replay(State(), req)
    {
      if k :| k in jobs && Holder(jobs[k], DedupOf(req)) && jobs[k].scope == req.scope {
        assert JobSound(jobs[k]);
        FindLiveIsTheHolder(State(), jobs[k]);
        return Deduplicated(jobs[k]);
      }
      return Rejected(SlotTaken);
    }

    /** `todo` is the answer of the scan query on the current store. */
    method ClaimJob(worker: string, scopes: seq<string>, kinds: seq<string>, todo: seq<Job>)
      returns (lease: Option<Job>)
      requires IsScan(State(), scopes, kinds, todo)
      modifies this`jobs
      ensures exists n :: ClaimedAt(old(State()), worker, todo, n, lease, State())
      ensures lease.Some? ==> lease.value.scope in scopes && lease.value.kind in kinds && lease.value.id in old(jobs)
    {
      ghost var before := State();
      ghost var n := ClaimTakesTheFirst(before, worker, todo);
      lease := TryRows(worker, todo);
      LeaseIsInGrant(before, scopes, kinds, worker, todo, n, lease, State());
    }

    /** The loop of a claim. */
    method TryRows(worker: string, todo: seq<Job>) returns (lease: Option<Job>)
      modifies this`jobs
      ensures (lease, State()) == ClaimRows(old(State()), worker, todo)
    {
      ghost var start := State();
      for i := 0 to |todo|
        invariant ClaimRows(start, worker, todo) == ClaimRows(State(), worker, todo[i..])
      {
        var j := todo[i];
        assert todo[i..][0] == j && todo[i..][1..] == todo[i + 1..];
        var choice := Choose(j, now);
        if choice.Skip? {
          continue;
        }
        var f := TakeFlight(worker, j, now);
        if j.id in jobs {
          var done := Updated(Db(jobs, rows, now), jobs[j.id], f);
          if done.Some? {
            jobs := jobs[j.id := done.value];
            if choice.Take? {
              return Some(done.value);
            }
          }
        }
      }
      return None;
    }

    /** The read half of every by-id operation. */
    method ReadJob(id: string) returns (r: Result<Job, StoreError>)
      ensures r == if id in jobs then Ok(jobs[id]) else Err(NotFound)
    {
      r := if id in jobs then Ok(jobs[id]) else Err(NotFound);
    }

    /** The commit half: the guarded update of one flight. */
    method CommitFlight(f: Flight) returns (done: Option<Job>)
      requires TargetOf(f).Some? && f.job.id in jobs
      modifies this`jobs
      ensures done == Updated(old(State()), old(jobs)[f.job.id], f)
      ensures jobs == CommitJobs(old(State()), f)
    {
      done := Updated(Db(jobs, rows, now), jobs[f.job.id], f);
      if done.Some? {
        jobs := jobs[f.job.id := done.value];
      }
    }

    method RenewJobLease(id: string, fence: nat, worker: string) returns (r: Result<Job, StoreError>)
      requires JobsSound(jobs)
      modifies this`jobs
      ensures r.Ok? <==> id in old(jobs) && Holds(old(jobs)[id], fence, worker)
      ensures r.Ok? ==> r.value == old(jobs)[id].(leaseUntil := Some(NowPlus(now, r.value.budget.leaseMs)))
      ensures r.Err? ==> r.error == (if id in old(jobs) then Lost else NotFound)
      ensures jobs == if r.Ok? then old(jobs)[id := r.value] else old(jobs)
    {
      var j := ReadJob(id);
      if j.Err? {
        return Err(j.error);
      }
      var done := CommitFlight(Renewing(j.value, fence, worker, NowPlus(now, j.value.budget.leaseMs)));
      r := if done.Some? then Ok(done.value) else Err(Lost);
    }

    method CheckpointJob(id: string, fence: nat, worker: string, body: string) returns (r: Result<Job, StoreError>)
      requires JobsSound(jobs)
      modifies this`jobs
      ensures r.Ok? <==> id in old(jobs) && Holds(old(jobs)[id], fence, worker)
      ensures r.Ok? ==> r.value == old(jobs)[id].(checkpoint := Some(body))
      ensures r.Err? ==> r.error == (if id in old(jobs) then Lost else NotFound)
      ensures jobs == if r.Ok? then old(jobs)[id := r.value] else old(jobs)
    {
      var j := ReadJob(id);
      if j.Err? {
        return Err(j.error);
      }
      var done := CommitFlight(Checkpointing(j.value, fence, worker, body));
      r := if done.Some? then Ok(done.value) else Err(Lost);
    }

    /** Succeeds exactly for the lease holder while every pinned input holds. */
    method CompleteJob(id: string, fence: nat, worker: string, result: string) returns (r: Result<Job, StoreError>)
      requires JobsSound(jobs)
      modifies this`jobs
      ensures r.Ok? <==>
        && id in old(jobs) && Holds(old(jobs)[id], fence, worker)
        && InputsHold(rows, old(jobs)[id].scope, old(jobs)[id].inputs)
      ensures r.Err? && id in old(jobs) ==>
        r.error == (if InputsHold(rows, old(jobs)[id].scope, old(jobs)[id].inputs) then Lost else Stale)
      ensures r.Ok? ==> JobSound(r.value)
      ensures r.Ok? ==> r.value == old(jobs)[id].(
          state := Succeeded, result := Some(result), completedAt := Some(now), slot := Tombstone(old(jobs)[id].id),
          history := CloseHistory(old(jobs)[id].history, now, None))
      ensures id !in old(jobs) ==> r == Err(NotFound)
      ensures jobs == if r.Ok? then old(jobs)[id := r.value] else old(jobs)
    {
      var j := ReadJob(id);
      if j.Err? {
        return Err(j.error);
      }
      var f := Completing(j.value, fence, worker, result, now);
      var held := InputsHold(rows, j.value.scope, j.value.inputs);
      var done := CommitFlight(f);
      r := if done.Some? then Ok(done.value) else Err(if held then Lost else Stale);
    }

    method FailJob(id: string, fence: nat, worker: string, e: JobError) returns (r: Result<Job, StoreError>)
      requires JobsSound(jobs)
      modifies this`jobs
      ensures r.Ok? <==> id in old(jobs) && Holds(old(jobs)[id], fence, worker)
      ensures r.Ok? ==> JobSound(r.value) && FailedOrRetried(r.value, old(jobs)[id], now, e)
      ensures r.Err? ==> r.error == (if id in old(jobs) then Lost else NotFound)
      ensures jobs == if r.Ok? then old(jobs)[id := r.value] else old(jobs)
    {
      var j := ReadJob(id);
      if j.Err? {
        return Err(j.error);
      }
      var done := CommitFlight(Failing(j.value, fence, worker, e, PlanFailure(j.value, now, e), now));
      r := if done.Some? then Ok(done.value) else Err(Lost);
    }

    /** Cancellation is not rollback: a committed checkpoint stays on the record. */
    method CancelJob(scope: string, id: string, reason: string) returns (r: Result<Job, StoreError>)
      requires JobsSound(jobs)
      modifies this`jobs
      ensures r.Ok? <==> id in old(jobs) && old(jobs)[id].scope == scope && !Terminal(old(jobs)[id].state)
      ensures r.Ok? ==> JobSound(r.value)
      ensures r.Ok? ==> r.value == old(jobs)[id].(
          state := Cancelled, reason := Some(reason), slot := Tombstone(old(jobs)[id].id), completedAt := Some(now),
          leaseUntil := None, owner := None, history := CloseHistory(old(jobs)[id].history, now, None))
      ensures r.Err? ==> r.error == (if id !in old(jobs) then NotFound
                                     else if old(jobs)[id].scope != scope then ScopeDenied else Invalid)
      ensures jobs == if r.Ok? then old(jobs)[id := r.value] else old(jobs)
    {
      var j := ReadJob(id);
      if j.Err? {
        return Err(j.error);
      }
      if j.value.scope != scope {
        return Err(ScopeDenied);
      }
      if Terminal(j.value.state) {
        return Err(Invalid);
      }
      var done := CommitFlight(Cancelling(j.value, reason, now));
      return Ok(done.value);
    }

    method SupersedeJob(scope: string, id: string, replacement: string, reason: string)
      returns (r: Result<Job, StoreError>)
      requires JobsSound(jobs)
      modifies this`jobs
      ensures r.Ok? <==>
        id in old(jobs) && old(jobs)[id].scope == scope && !Terminal(old(jobs)[id].state)
        && replacement in old(jobs) && old(jobs)[replacement].scope == scope
      ensures r.Ok? ==> JobSound(r.value)
      ensures r.Ok? ==> r.value == old(jobs)[id].(
          state := Superseded, replacedBy := Some(replacement), reason := Some(reason),
          slot := Tombstone(old(jobs)[id].id), completedAt := Some(now),
          leaseUntil := None, owner := None, history := CloseHistory(old(jobs)[id].history, now, None))
      ensures r.Err? ==> r.error == (if id !in old(jobs) then NotFound
                                     else if old(jobs)[id].scope != scope then ScopeDenied
                                     else if Terminal(old(jobs)[id].state) then Invalid
                                     else if replacement !in old(jobs) then NotFound else ScopeDenied)
      ensures jobs == if r.Ok? then old(jobs)[id := r.value] else old(jobs)
    {
      var j := ReadJob(id);
      if j.Err? {
        return Err(j.error);
      }
      if j.value.scope != scope {
        return Err(ScopeDenied);
      }
      if Terminal(j.value.state) {
        return Err(Invalid);
      }
      var other := ReadJob(replacement);
      if other.Err? {
        return Err(other.error);
      }
      if other.value.scope != scope {
        return Err(ScopeDenied);
      }
      var done := CommitFlight(Superseding(j.value, replacement, reason, now));
      return Ok(done.value);
    }
  }

  // ---- What a claim finds ------------------------------------------------------------

  /** Rows that are what the store holds, each once. */
  ghost predicate FreshRows(db: Db, todo: seq<Job>) {
    && (forall i :: 0 <= i < |todo| ==> Current(db, todo[i]) && Due(todo[i], db.now))
    && (forall i, j :: 0 <= i < j < |todo| ==> todo[i].id != todo[j].id)
  }

  lemma {:induction false} FreshRowsStay(db: Db, db': Db, todo: seq<Job>)
    requires todo != [] && FreshRows(db, todo) && db'.now == db.now
    requires forall k :: k in db.jobs && k != todo[0].id ==> k in db'.jobs && db'.jobs[k] == db.jobs[k]
    ensures FreshRows(db', todo[1..])
  {
    assert forall i :: 0 <= i < |todo[1..]| ==> todo[1..][i] == todo[i + 1];
  }

  /**
   The record a claim leaves of the row it takes: the same job with its progress and
   its last error, a new attempt in its history, and the lease.
   */
  predicate LeasedTo(j': Job, j: Job, worker: string, now: nat) {
    && Follows(j, j') && j'.slot == j.slot
    && j'.checkpoint == j.checkpoint && j'.error == j.error && j'.result == j.result
    && j'.replacedBy == j.replacedBy && j'.reason == j.reason && j'.completedAt == j.completedAt
    && j'.history == j.history + [Attempt(j.attempts + 1, worker, j.fence + 1, now, None, None)]
    && j'.state.Leased? && j'.owner == Some(worker) && j'.notBefore.None?
    && j'.fence == j.fence + 1 && j'.attempts == j.attempts + 1
    && j'.leaseUntil == Some(if now + j.budget.leaseMs <= TIMESTAMP_MAX then now + j.budget.leaseMs else now)
  }

  /** What becomes of row `i` of a scan when row `n` is taken. */
  ghost predicate RowAfter(db: Db, worker: string, todo: seq<Job>, n: nat, i: nat, db': Db)
    requires i < |todo|
  {
    && todo[i].id in db'.jobs
    && var j, j' := todo[i], db'.jobs[todo[i].id];
       if i == n then LeasedTo(j', j, worker, db.now)
       else if i < n && Choose(j, db.now).Expire? then Overdue(j', j, db.now)
       else j' == j
  }

  /** The record of a pending job that missed its deadline: ended, and otherwise as it was. */
  predicate Overdue(j': Job, j: Job, now: nat) {
    j' == j.(state := JobState.Failed, reason := Some("deadline exceeded"), slot := Tombstone(j.id),
             completedAt := Some(now))
  }

  /** Rows before `n` are expired or skipped, row `n` is taken, nothing else changes. */
  ghost predicate ClaimedAt(db: Db, worker: string, todo: seq<Job>, n: nat, lease: Option<Job>, db': Db) {
    && n <= |todo|
    && (forall i :: 0 <= i < n ==> !Choose(todo[i], db.now).Take?)
    && (n < |todo| ==> Choose(todo[n], db.now).Take?)
    && lease == (if n < |todo| && todo[n].id in db'.jobs then Some(db'.jobs[todo[n].id]) else None)
    && db'.rows == db.rows && db'.now == db.now && db'.jobs.Keys == db.jobs.Keys
    && (forall i :: 0 <= i < |todo| ==> RowAfter(db, worker, todo, n, i, db'))
    && (forall k :: k in db.jobs && (forall i :: 0 <= i < |todo| ==> todo[i].id != k) ==> db'.jobs[k] == db.jobs[k])
  }

  /** What the first row becomes when it is not taken; the other records stay. */
  ghost predicate HeadDone(db: Db, j: Job, db1: Db) {
    && db1.rows == db.rows && db1.now == db.now && db1.jobs.Keys == db.jobs.Keys
    && (forall k :: k in db.jobs && k != j.id ==> db1.jobs[k] == db.jobs[k])
    && j.id in db1.jobs
    && var j' := db1.jobs[j.id];
       if Choose(j, db.now).Expire? then Overdue(j', j, db.now) else j' == j
  }

  lemma HeadAfter(db: Db, worker: string, j: Job, db1: Db)
    requires Current(db, j) && Due(j, db.now) && !Choose(j, db.now).Take?
    requires db1 == if Choose(j, db.now).Skip? then db else db.(jobs := CommitJobs(db, TakeFlight(worker, j, db.now)))
    ensures HeadDone(db, j, db1)
  {
  }

  lemma ClaimedLater(db: Db, worker: string, todo: seq<Job>, db1: Db, m: nat, lease: Option<Job>, db': Db)
    requires todo != [] && FreshRows(db, todo) && !Choose(todo[0], db.now).Take?
    requires HeadDone(db, todo[0], db1)
    requires ClaimedAt(db1, worker, todo[1..], m, lease, db')
    ensures ClaimedAt(db, worker, todo, m + 1, lease, db')
  {
    var rest, n := todo[1..], m + 1;
    assert forall i :: 0 < i < |todo| ==> todo[i] == rest[i - 1];
    assert forall i :: 0 <= i < |rest| ==> rest[i].id != todo[0].id;
    forall i | 0 <= i < |todo| ensures RowAfter(db, worker, todo, n, i, db') {
      if i > 0 {
        assert RowAfter(db1, worker, rest, m, i - 1, db');
      }
    }
  }

  lemma ClaimedFirst(db: Db, worker: string, todo: seq<Job>)
    requires todo != [] && FreshRows(db, todo) && Choose(todo[0], db.now).Take?
    ensures ClaimedAt(db, worker, todo, 0, ClaimRows(db, worker, todo).0, ClaimRows(db, worker, todo).1)
  {
  }

  /**
   A claim without interference takes the first row that can be taken, ends the
   pending rows before it that are past their deadline, and touches nothing else.
   */
  lemma {:induction false} ClaimTakesTheFirst(db: Db, worker: string, todo: seq<Job>) returns (n: nat)
    requires FreshRows(db, todo)
    ensures ClaimedAt(db, worker, todo, n, ClaimRows(db, worker, todo).0, ClaimRows(db, worker, todo).1)
    decreases |todo|
  {
    n := 0;
    if todo != [] {
      var j, rest := todo[0], todo[1..];
      if Choose(j, db.now).Take? {
        ClaimedFirst(db, worker, todo);
      } else {
        var db1 := if Choose(j, db.now).Skip? then db else db.(jobs := CommitJobs(db, TakeFlight(worker, j, db.now)));
        HeadAfter(db, worker, j, db1);
        FreshRowsStay(db, db1, todo);
        var m := ClaimTakesTheFirst(db1, worker, rest);
        n := m + 1;
        ClaimedLater(db, worker, todo, db1, m, ClaimRows(db1, worker, rest).0, ClaimRows(db1, worker, rest).1);
      }
    }
  }

  /** What is leased is a row of the scan, and so of the worker's grant. */
  lemma LeaseIsInGrant(db: Db, scopes: seq<string>, kinds: seq<string>, worker: string, todo: seq<Job>, n: nat,
                       lease: Option<Job>, db': Db)
    requires IsScan(db, scopes, kinds, todo) && ClaimedAt(db, worker, todo, n, lease, db')
    ensures lease.Some? ==> lease.value.scope in scopes && lease.value.kind in kinds && lease.value.id in db.jobs
  {
    if n < |todo| {
      assert RowAfter(db, worker, todo, n, n, db');
    }
  }

  // ---- Starvation ---------------------------------------------------------------------

  /** Leased for its last attempt: the claim loop skips it. */
  predicate Exhausted(j: Job) { j.state.Leased? && j.attempts == j.budget.maxAttempts }

  /** A full scan of exhausted leases that are the oldest live jobs the worker may see. */
  ghost predicate Starves(db: Db, scopes: seq<string>, kinds: seq<string>, todo: seq<Job>) {
    && IsScan(db, scopes, kinds, todo) && |todo| == SCAN_LIMIT
    && (forall i :: 0 <= i < |todo| ==> Exhausted(todo[i]))
    && (forall k ::
          k in db.jobs && Granted(db.jobs[k], scopes, kinds) && db.jobs[k] !in todo ==> YoungerThan(db.jobs[k], todo))
  }

  /** A live job the worker may see. */
  predicate Granted(j: Job, scopes: seq<string>, kinds: seq<string>) {
    !Terminal(j.state) && j.scope in scopes && j.kind in kinds
  }

  predicate YoungerThan(j: Job, todo: seq<Job>) {
    forall i :: 0 <= i < |todo| ==> todo[i].createdAt <= j.createdAt
  }

  /** A holder's effect, a cancel or a supersede lands on one of the rows. */
  ghost predicate Disturbs(w: World, a: Action, todo: seq<Job>) {
    exists i :: 0 <= i < |todo| && Touches(w, a, todo[i].id)
      && (w.flights[a.call].Cancelling? || w.flights[a.call].Superseding? || IsEffect(w.flights[a.call]))
  }

  ghost predicate Undisturbed(w: World, run: seq<Action>, todo: seq<Job>)
    requires Legal(w, run)
    decreases |run|
  {
    run == [] || (!Disturbs(w, run[0], todo) && Undisturbed(Step(w, run[0]), run[1..], todo))
  }

  lemma {:induction false} SkippedRowsYieldNothing(db: Db, worker: string, todo: seq<Job>)
    requires forall i :: 0 <= i < |todo| ==> Choose(todo[i], db.now).Skip?
    ensures ClaimRows(db, worker, todo) == (None, db)
  {
    if todo != [] {
      assert forall i :: 0 <= i < |todo[1..]| ==> todo[1..][i] == todo[i + 1];
      SkippedRowsYieldNothing(db, worker, todo[1..]);
    }
  }

  /** The rows stand as they were. */
  lemma StarvingRowStays(w: World, a: Action, todo: seq<Job>, i: nat)
    requires Inv(w) && Enabled(w, a) && !Disturbs(w, a, todo)
    requires i < |todo| && Current(w.db, todo[i]) && Exhausted(todo[i])
    ensures Current(Step(w, a).db, todo[i])
  {
    StepKeepsInv(w, a);
    LastLeaseIsNeverTakenOver(w, a, todo[i].id);
  }

  lemma StarvingStep(w: World, a: Action, scopes: seq<string>, kinds: seq<string>, todo: seq<Job>)
    requires Inv(w) && Timely(w) && Enabled(w, a) && !Disturbs(w, a, todo)
    requires Starves(w.db, scopes, kinds, todo)
    ensures Starves(Step(w, a).db, scopes, kinds, todo)
  {
    var db, db' := w.db, Step(w, a).db;
    StepKeepsInv(w, a);
    StepCreatesNow(w, a);
    forall i | 0 <= i < |todo| ensures Current(db', todo[i]) && Due(todo[i], db'.now) {
      StarvingRowStays(w, a, todo, i);
      assert JobSound(db.jobs[todo[i].id]);
    }
    forall k | k in db'.jobs && Granted(db'.jobs[k], scopes, kinds) && db'.jobs[k] !in todo
      ensures YoungerThan(db'.jobs[k], todo)
    {
      if k in db.jobs {
        assert Follows(db.jobs[k], db'.jobs[k]);
        OldJobStaysYounger(db, db', scopes, kinds, todo, k);
      } else {
        NewJobIsYounger(w, db'.jobs[k], todo);
      }
    }
    StillStarves(db, db', scopes, kinds, todo);
  }

  lemma StillStarves(db: Db, db': Db, scopes: seq<string>, kinds: seq<string>, todo: seq<Job>)
    requires Starves(db, scopes, kinds, todo)
    requires forall i :: 0 <= i < |todo| ==> Current(db', todo[i]) && Due(todo[i], db'.now)
    requires forall k :: k in db'.jobs && Granted(db'.jobs[k], scopes, kinds) && db'.jobs[k] !in todo ==>
      YoungerThan(db'.jobs[k], todo)
    ensures Starves(db', scopes, kinds, todo)
  {
  }

  lemma NewJobIsYounger(w: World, j: Job, todo: seq<Job>)
    requires Timely(w) && j.createdAt == w.db.now && forall i :: 0 <= i < |todo| ==> Current(w.db, todo[i])
    ensures YoungerThan(j, todo)
  {
    forall i | 0 <= i < |todo| ensures todo[i].createdAt <= j.createdAt {
      assert w.db.jobs[todo[i].id].createdAt <= w.db.now;
    }
  }

  lemma OldJobStaysYounger(db: Db, db': Db, scopes: seq<string>, kinds: seq<string>, todo: seq<Job>, k: string)
    requires Starves(db, scopes, kinds, todo) && forall i :: 0 <= i < |todo| ==> Current(db', todo[i])
    requires k in db.jobs && k in db'.jobs && db.jobs[k].id == k && Follows(db.jobs[k], db'.jobs[k])
    requires Granted(db'.jobs[k], scopes, kinds) && db'.jobs[k] !in todo
    ensures YoungerThan(db'.jobs[k], todo)
  {
    assert YoungerThan(db.jobs[k], todo);
  }

  /**
   Starvation: when the oldest live jobs of a worker's grant fill a scan and are all
   leased for their last attempt, then in every continuation in which no holder's
   effect, cancel or supersede lands on them, that scan stays an answer of the scan
   query and a claim on it returns nothing, whatever younger jobs are due.
   */
  lemma {:induction false} StarvedScanPersists(w: World, run: seq<Action>, worker: string, scopes: seq<string>,
                                               kinds: seq<string>, todo: seq<Job>)
    requires Inv(w) && Timely(w) && Legal(w, run) && Undisturbed(w, run, todo)
    requires Starves(w.db, scopes, kinds, todo)
    ensures IsScan(Exec(w, run).db, scopes, kinds, todo)
    ensures ClaimRows(Exec(w, run).db, worker, todo) == (None, Exec(w, run).db)
    decreases |run|
  {
    if run == [] {
      SkippedRowsYieldNothing(w.db, worker, todo);
    } else {
      StepKeepsInv(w, run[0]);
      StepKeepsTimely(w, run[0]);
      StarvingStep(w, run[0], scopes, kinds, todo);
      StarvedScanPersists(Step(w, run[0]), run[1..], worker, scopes, kinds, todo);
    }
  }
}
