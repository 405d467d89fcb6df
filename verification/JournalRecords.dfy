/**
 The records of the journal field by field: which commits may write a field and what
 they write there, what every reachable record keeps, and what becomes of a job's
 progress and of its attempt history over runs.
 */
module JournalRecords {
  import opened Wrappers
  import opened Dedup
  import opened Jobs
  import opened Journal
  import opened JournalSafety
  import opened JournalLeases
  import opened JournalIntents
  import opened JournalRuns

  // ---- Who writes a field --------------------------------------------------------------

  /** The commit that lands on job `k` in this step, if one does. */
  ghost function Landing(w: World, a: Action, k: string): Option<Flight> {
    if Touches(w, a, k) then Some(w.flights[a.call]) else None
  }

  /** Progress is written by checkpoints alone: no claim, retry, expiry or withdrawal loses it. */
  lemma CheckpointStep(w: World, a: Action, k: string)
    requires Inv(w) && Enabled(w, a) && k in w.db.jobs
    ensures JobAfter(w, a, k).checkpoint ==
      match Landing(w, a, k)
      case Some(Checkpointing(_, _, _, body)) => Some(body)
      case _ => w.db.jobs[k].checkpoint
  {
    OnlyGuardedCommitsTouch(w, a, k);
  }

  /** Where each landed commit takes the job. */
  lemma StateStep(w: World, a: Action, k: string)
    requires Inv(w) && Enabled(w, a) && k in w.db.jobs
    ensures JobAfter(w, a, k).state ==
      match Landing(w, a, k)
      case Some(Taking(_, _, _, _, _)) => Leased
      case Some(Expiring(_, _, _)) => JobState.Failed
      case Some(Completing(_, _, _, _, _)) => Succeeded
      case Some(Failing(_, _, _, _, plan, _)) => if plan.retry then Pending else JobState.Failed
      case Some(Cancelling(_, _, _)) => Cancelled
      case Some(Superseding(_, _, _, _)) => Superseded
      case _ => w.db.jobs[k].state
  {
    OnlyGuardedCommitsTouch(w, a, k);
  }

  /** A result is written by completion, an error by failure, a replacement by superseding, and by nothing else. */
  lemma OutcomeStep(w: World, a: Action, k: string)
    requires Inv(w) && Enabled(w, a) && k in w.db.jobs
    ensures var j, j' := w.db.jobs[k], JobAfter(w, a, k);
      && j'.result == (match Landing(w, a, k)
                       case Some(Completing(_, _, _, result, _)) => Some(result)
                       case _ => j.result)
      && j'.error == (match Landing(w, a, k)
                      case Some(Failing(_, _, _, e, _, _)) => Some(e)
                      case _ => j.error)
      && j'.replacedBy == (match Landing(w, a, k)
                           case Some(Superseding(_, other, _, _)) => Some(other)
                           case _ => j.replacedBy)
  {
    OnlyGuardedCommitsTouch(w, a, k);
  }

  /** The reason a job ended for, and the time. */
  lemma EndStep(w: World, a: Action, k: string)
    requires Inv(w) && Enabled(w, a) && k in w.db.jobs
    ensures var j, j' := w.db.jobs[k], JobAfter(w, a, k);
      && j'.reason == (match Landing(w, a, k)
                       case Some(Expiring(_, _, _)) => Some("deadline exceeded")
                       case Some(Failing(_, _, _, _, plan, _)) => plan.reason
                       case Some(Cancelling(_, reason, _)) => Some(reason)
                       case Some(Superseding(_, _, reason, _)) => Some(reason)
                       case _ => j.reason)
      && j'.completedAt == (match Landing(w, a, k)
                            case Some(Failing(_, _, _, _, plan, at)) => if plan.retry then None else Some(at)
                            case Some(Taking(_, _, _, _, _)) => j.completedAt
                            case Some(Renewing(_, _, _, _)) => j.completedAt
                            case Some(Checkpointing(_, _, _, _)) => j.completedAt
                            case Some(_) => Some(w.db.now)
                            case None => j.completedAt)
  {
    OnlyGuardedCommitsTouch(w, a, k);
  }

  /** Who holds the job until when, and when it is due again. */
  lemma LeaseStep(w: World, a: Action, k: string)
    requires Inv(w) && Enabled(w, a) && k in w.db.jobs
    ensures var j, j' := w.db.jobs[k], JobAfter(w, a, k);
      && (j'.owner, j'.leaseUntil) == (match Landing(w, a, k)
                                       case Some(Taking(worker, _, until, _, _)) => (Some(worker), Some(until))
                                       case Some(Renewing(_, _, _, until)) => (j.owner, Some(until))
                                       case Some(Failing(_, _, _, _, _, _)) => (None, None)
                                       case Some(Cancelling(_, _, _)) => (None, None)
                                       case Some(Superseding(_, _, _, _)) => (None, None)
                                       case _ => (j.owner, j.leaseUntil))
      && j'.notBefore == (match Landing(w, a, k)
                          case Some(Taking(_, _, _, _, _)) => None
                          case Some(Failing(_, _, _, _, plan, _)) => plan.notBefore
                          case _ => j.notBefore)
  {
    OnlyGuardedCommitsTouch(w, a, k);
  }

  /**
   A claim appends one open attempt, numbered and fenced as the job now is; what ends
   an attempt ends it in the history its operation had read; the rest leaves it.
   */
  lemma HistoryStep(w: World, a: Action, k: string)
    requires Inv(w) && Enabled(w, a) && k in w.db.jobs
    ensures var j, j' := w.db.jobs[k], JobAfter(w, a, k);
      j'.history ==
        match Landing(w, a, k)
        case Some(Taking(worker, _, _, at, _)) =>
          j.history + [Attempt(j.attempts + 1, worker, j.fence + 1, at, None, None)]
        case Some(Completing(snap, _, _, _, at)) => CloseHistory(snap.history, at, None)
        case Some(Failing(snap, _, _, e, _, at)) => CloseHistory(snap.history, at, Some(e.message))
        case Some(Cancelling(snap, _, at)) => CloseHistory(snap.history, at, None)
        case Some(Superseding(snap, _, _, at)) => CloseHistory(snap.history, at, None)
        case _ => j.history
  {
    OnlyGuardedCommitsTouch(w, a, k);
    if Touches(w, a, k) {
      EffectLandsOnRecord(w, a, k);
      assert FlightSound(w.flights[a.call]);
    }
  }

  /** A new job is what was asked for, pending and untried. */
  lemma NewJobIsTheRequest(id: string, r: Request, now: nat)
    ensures var j := NewJob(id, r, now);
      && j.id == id && j.scope == r.scope && j.kind == r.kind && j.inputs == r.inputs && j.budget == r.budget
      && j.state.Pending? && j.attempts == 0 && j.fence == 0 && j.history == [] && j.createdAt == now
      && j.dedup == DedupOf(r) && j.slot == Live(j.dedup)
      && j.owner.None? && j.leaseUntil.None? && j.notBefore.None? && j.checkpoint.None? && j.result.None?
      && j.error.None? && j.replacedBy.None? && j.reason.None? && j.completedAt.None?
  {
  }

  // ---- Which commits land ---------------------------------------------------------------------

  /** An input is there: its row exists in the scope and, for a versioned kind with a pin, is at that version. */
  predicate InputThere(rows: Rows, scope: string, i: Input) {
    if (i.kind, i.id) !in rows then false
    else
      var row := rows[(i.kind, i.id)];
      row.scope == scope && ((i.kind.Memory? || i.kind.Entity?) && i.revision.Some? ==> row.version == i.revision.value)
  }

  /** The job may be claimed at `now`: pending and due, or its lease has run out. */
  predicate Claimable(j: Job, now: nat) {
    match j.state
    case Pending => j.notBefore.None? || j.notBefore.value <= now
    case Leased => j.leaseUntil.None? || j.leaseUntil.value <= now
    case _ => false
  }

  /**
   What each commit checks on the record it finds, written out: claims and expiries the
   fence they read, effects the fence and the worker of a running lease, completions
   the inputs as well, and withdrawals only that the job has not ended.
   */
  lemma LandsIff(w: World, call: nat)
    requires Inv(w) && call in w.flights && TargetOf(w.flights[call]).Some?
    ensures var f := w.flights[call];
      && f.job.id in w.db.jobs
      && var j := w.db.jobs[f.job.id];
         var held := (worker: string, fence: nat) =>
           j.state.Leased? && j.fence == fence && j.owner == Some(worker);
         Touches(w, Commit(call), f.job.id) <==>
           match f
           case Taking(_, snap, _, _, _) => Claimable(j, w.db.now) && j.fence == snap.fence
           case Expiring(_, snap, _) => j.state.Pending? && j.fence == snap.fence
           case Renewing(_, fence, worker, _) => held(worker, fence)
           case Checkpointing(_, fence, worker, _) => held(worker, fence)
           case Completing(_, fence, worker, _, _) =>
             held(worker, fence) && forall i :: i in j.inputs ==> InputThere(w.db.rows, j.scope, i)
           case Failing(_, fence, worker, _, _, _) => held(worker, fence)
           case Cancelling(_, _, _) => j.state.Pending? || j.state.Leased?
           case Superseding(_, _, _, _) => j.state.Pending? || j.state.Leased?
           case Scanned(_, _) => false
  {
    var f := w.flights[call];
    assert f.job in Snapshots(f);
  }

  /** A request is refused for its shape, before anything is read, exactly on these counts. */
  lemma ShapeRefusedIff(db: Db, id: string, r: Request)
    requires id !in db.jobs && '\n' !in r.scope && '\n' !in r.composition
    ensures Enqueue(db, id, r) == (Rejected(InvalidShape), db) <==>
      || r.kind == "" || |r.kind| > 64 || |r.inputs| > INPUTS_MAX || r.budget.maxAttempts == 0 || r.budget.leaseMs == 0
  {
  }

  /** Resolving an intent fills in the scope and the record being written, and keeps the rest. */
  lemma ResolvedIntentIs(it: Intent, scope: string, key: string)
    ensures var r := Resolve(it, scope, Some(key));
      && r.scope == scope && r.kind == it.kind && r.composition == it.composition && r.budget == it.budget
      && r.hint == it.hint
      && (forall i :: i in r.inputs <==> i in it.inputs || (it.selfInput && i == Input(Memory, key, Some(1))))
      && it.inputs <= r.inputs && Resolve(it, scope, None).inputs == it.inputs
  {
  }

  // ---- Replies ------------------------------------------------------------------------------

  /**
   A worker is told the truth: its effect's record exactly when it landed, a stale
   input exactly when a completion met one, and a lost lease otherwise.
   */
  lemma RepliesTellTheTruth(w: World, call: nat)
    requires Inv(w) && call in w.flights && IsEffect(w.flights[call])
    ensures var f := w.flights[call];
      var stale := f.Completing? && !InputsHold(w.db.rows, f.job.scope, f.job.inputs);
      && f.job.id in w.db.jobs
      && var reply := ReplyOf(w.db, f);
         && (reply == StaleInput <==> stale)
         && (reply == LeaseLost <==> !stale && !Touches(w, Commit(call), f.job.id))
         && (Touches(w, Commit(call), f.job.id) ==>
               (reply.Record? || reply.Lease?) && reply.job == JobAfter(w, Commit(call), f.job.id))
  {
    EffectLandsIffLeaseHeld(w, call);
    OnlyGuardedCommitsTouch(w, Commit(call), w.flights[call].job.id);
  }

  /** A claim works through its scan row by row: it ends with a lease or after the last row. */
  lemma ClaimTriesEveryRow(w: World, call: nat)
    requires Inv(w) && call in w.flights
    requires var f := w.flights[call]; f.Scanned? || f.Taking? || f.Expiring?
    ensures var f, w' := w.flights[call], Step(w, Commit(call));
      && (call !in w'.flights <==>
            (f.Scanned? && f.todo == []) || (f.Taking? && Touches(w, Commit(call), f.job.id)))
      && (call in w'.flights ==>
            && w'.flights[call].worker == f.worker
            && w'.flights[call].todo == (if f.Scanned? then f.todo[1..] else f.todo))
  {
    var f := w.flights[call];
    if f.Taking? {
      assert f.job in Snapshots(f);
    }
  }

  // ---- Progress over runs ---------------------------------------------------------------------

  /** The body of the last checkpoint that lands on the job in a run, `c` if none does. */
  ghost function LastCheckpoint(w: World, run: seq<Action>, k: string, c: Option<string>): Option<string>
    requires Legal(w, run)
    decreases |run|
  {
    if run == [] then c
    else
      var landed := Landing(w, run[0], k);
      LastCheckpoint(Step(w, run[0]), run[1..], k,
                     if landed.Some? && landed.value.Checkpointing? then Some(landed.value.body) else c)
  }

  /** Over every run a job's progress is its last checkpoint, through retries, takeovers and its end. */
  lemma {:induction false} ProgressIsTheLastCheckpoint(w: World, run: seq<Action>, k: string)
    requires Inv(w) && Legal(w, run) && k in w.db.jobs
    ensures k in Exec(w, run).db.jobs
    ensures Exec(w, run).db.jobs[k].checkpoint == LastCheckpoint(w, run, k, w.db.jobs[k].checkpoint)
    decreases |run|
  {
    if run != [] {
      StepKeepsInv(w, run[0]);
      CheckpointStep(w, run[0], k);
      ProgressIsTheLastCheckpoint(Step(w, run[0]), run[1..], k);
    }
  }

  // ---- What every record keeps ------------------------------------------------------------------

  /** The last entry of the history is the running attempt. */
  predicate RunsLastAttempt(j: Job) {
    && j.history != [] && j.owner.Some?
    && var last := j.history[|j.history| - 1];
       && last.attempt == j.attempts && last.fence == j.fence && last.worker == j.owner.value
       && last.endedAt.None? && last.error.None?
  }

  /** The fields agree with the state. */
  predicate RecordSound(j: Job) {
    && (j.completedAt.Some? <==> Terminal(j.state))
    && (j.replacedBy.Some? <==> j.state.Superseded?)
    && (j.reason.Some? <==> Terminal(j.state) && !j.state.Succeeded?)
    && (j.state.Pending? ==>
          && j.owner.None? && j.leaseUntil.None?
          && (j.notBefore.Some? <==> j.attempts > 0) && (j.error.Some? <==> j.attempts > 0)
          && (j.error.Some? ==> j.error.value.retryable))
    && (j.state.Leased? ==> j.notBefore.None? && RunsLastAttempt(j))
    && (Terminal(j.state) && !j.state.Succeeded? ==> j.owner.None? && j.leaseUntil.None?)
    && (forall i :: 0 <= i < |j.history| ==> j.history[i].fence <= j.fence)
  }

  /** A snapshot of the running attempt has its history. */
  predicate Agrees(s: Job, j: Job) {
    s.fence == j.fence && j.state.Leased? ==> s.state.Leased? && s.history == j.history
  }

  predicate EntriesBounded(s: Job) { forall i :: 0 <= i < |s.history| ==> s.history[i].fence <= s.fence }

  ghost predicate Sound(w: World) {
    && (forall k :: k in w.db.jobs ==> RecordSound(w.db.jobs[k]))
    && (forall c, s :: c in w.flights && s in Snapshots(w.flights[c]) && s.id in w.db.jobs ==>
          EntriesBounded(s) && Agrees(s, w.db.jobs[s.id]))
  }

  lemma ClosingKeepsBounds(h: seq<Attempt>, now: nat, error: Option<string>, fence: nat)
    requires forall i :: 0 <= i < |h| ==> h[i].fence <= fence
    ensures var r := CloseHistory(h, now, error); forall i :: 0 <= i < |r| ==> r[i].fence <= fence
  {
  }

  lemma UpdateKeepsRecord(db: Db, j: Job, f: Flight)
    requires TargetOf(f).Some? && Updated(db, j, f).Some?
    requires JobSound(j) && FlightSound(f) && Follows(f.job, j) && RecordSound(j) && EntriesBounded(f.job)
    ensures RecordSound(Updated(db, j, f).value)
  {
    if f.Taking? {
      ClaimKeepsRecord(j, f.job, f.worker, f.until, f.readAt);
    } else if f.Failing? {
      FailureKeepsRecord(j, f.job, f.error, f.plan, f.readAt);
    } else if f.Cancelling? || f.Superseding? {
      ClosingKeepsBounds(f.job.history, f.readAt, None, j.fence);
    } else if f.Completing? {
      ClosingKeepsBounds(f.job.history, f.readAt, None, j.fence);
    }
  }

  lemma ClaimKeepsRecord(j: Job, snap: Job, worker: string, until: nat, readAt: nat)
    requires JobSound(j) && RecordSound(j) && !Terminal(j.state) && JobSound(snap) && snap.fence == j.fence
    ensures RecordSound(Claimed(j, snap, worker, until, readAt))
  {
  }

  lemma FailureKeepsRecord(j: Job, snap: Job, e: JobError, plan: FailPlan, readAt: nat)
    requires JobSound(j) && RecordSound(j) && j.state.Leased? && Follows(snap, j) && EntriesBounded(snap)
    requires plan == PlanFailure(snap, readAt, e)
    ensures RecordSound(Failure(j, snap, e, plan, readAt))
  {
    ClosingKeepsBounds(snap.history, readAt, Some(e.message), j.fence);
  }

  /** An update of a leased record that leaves it leased keeps its history or raises the fence. */
  lemma UpdateKeepsAgreement(db: Db, j: Job, f: Flight, s: Job)
    requires Updated(db, j, f).Some? && s.fence <= j.fence && Agrees(s, j)
    ensures Agrees(s, Updated(db, j, f).value)
  {
  }

  /** A job that appears in a step is a new one. */
  lemma NewRecords(w: World, a: Action, k: string)
    requires Inv(w) && Enabled(w, a) && k in Step(w, a).db.jobs && k !in w.db.jobs
    ensures exists r :: Step(w, a).db.jobs[k] == NewJob(k, r, w.db.now)
  {
    match a
    case CommitIntents(write) =>
      if CommitWrite(w.db, write).Some? {
        WriteCommitsIff(w.db, write);
        assert Declares(write.slots, k);
      }
    case Accept(id, r) =>
      assert Step(w, a).db.jobs[k] == NewJob(k, r, w.db.now);
    case Commit(call) => UpdateKeepsBirthday(w.db, w.flights[call]);
    case _ =>
  }

  lemma NewJobIsSound(id: string, r: Request, now: nat)
    ensures RecordSound(NewJob(id, r, now))
  {
  }

  lemma StepKeepsRecords(w: World, a: Action, k: string)
    requires Inv(w) && Sound(w) && Enabled(w, a) && k in Step(w, a).db.jobs
    ensures RecordSound(Step(w, a).db.jobs[k])
  {
    if k in w.db.jobs {
      OnlyGuardedCommitsTouch(w, a, k);
      if Touches(w, a, k) {
        EffectLandsOnRecord(w, a, k);
        UpdateKeepsRecord(w.db, w.db.jobs[k], w.flights[a.call]);
      }
    } else {
      NewRecords(w, a, k);
      var r :| Step(w, a).db.jobs[k] == NewJob(k, r, w.db.now);
      NewJobIsSound(k, r, w.db.now);
    }
  }

  /** A snapshot held before a step still agrees after it. */
  lemma StepKeepsAgreement(w: World, a: Action, c: nat, s: Job)
    requires Inv(w) && Sound(w) && Enabled(w, a) && c in w.flights && s in Snapshots(w.flights[c])
    ensures s.id in w.db.jobs && s.id in Step(w, a).db.jobs
    ensures EntriesBounded(s) && Agrees(s, Step(w, a).db.jobs[s.id])
  {
    StepKeepsInv(w, a);
    assert SnapshotsPast(w.db.jobs, w.flights[c]);
    OnlyGuardedCommitsTouch(w, a, s.id);
    if Touches(w, a, s.id) {
      UpdateKeepsAgreement(w.db, w.db.jobs[s.id], w.flights[a.call], s);
    }
  }

  /** What a flight holds after a step it held before, or has just read. */
  lemma SnapshotsComeFrom(w: World, a: Action, c: nat, s: Job)
    requires Inv(w) && Enabled(w, a) && c in Step(w, a).flights && s in Snapshots(Step(w, a).flights[c])
    ensures (c in w.flights && s in Snapshots(w.flights[c])) || (Current(w.db, s) && Step(w, a).db == w.db)
  {
    match a
    case Begin(call, f) => if c == call { ReadIsCurrent(w.db, f, s); }
    case Commit(call) => if c == call { NextSnapshots(w.db, w.flights[call], s); }
    case _ =>
  }

  lemma ReadIsCurrent(db: Db, f: Flight, s: Job)
    requires JustRead(db, f) && s in Snapshots(f)
    ensures Current(db, s)
  {
  }

  lemma NextSnapshots(db: Db, f: Flight, s: Job)
    requires NextFlight(db, f).Some? && s in Snapshots(NextFlight(db, f).value)
    ensures s in Snapshots(f)
  {
  }

  lemma StepKeepsSound(w: World, a: Action)
    requires Inv(w) && Sound(w) && Enabled(w, a)
    ensures Sound(Step(w, a))
  {
    var w' := Step(w, a);
    forall k | k in w'.db.jobs ensures RecordSound(w'.db.jobs[k]) {
      StepKeepsRecords(w, a, k);
    }
    forall c, s | c in w'.flights && s in Snapshots(w'.flights[c]) && s.id in w'.db.jobs
      ensures EntriesBounded(s) && Agrees(s, w'.db.jobs[s.id])
    {
      SnapshotsComeFrom(w, a, c, s);
      if c in w.flights && s in Snapshots(w.flights[c]) {
        StepKeepsAgreement(w, a, c, s);
      } else {
        assert RecordSound(w.db.jobs[s.id]);
      }
    }
  }

  /** In every reachable world the fields of every record agree with its state. */
  lemma ReachableRecordsAreSound(w: World)
    requires Reachable(w)
    ensures Sound(w)
  {
    var rows, now, run :| Legal(Start(rows, now), run) && Exec(Start(rows, now), run) == w;
    EmptyJournalIsSound(rows, now);
    RunKeepsSound(Start(rows, now), run);
  }

  lemma {:induction false} RunKeepsSound(w: World, run: seq<Action>)
    requires Inv(w) && Sound(w) && Legal(w, run)
    ensures Sound(Exec(w, run))
    decreases |run|
  {
    if run != [] {
      StepKeepsInv(w, run[0]);
      StepKeepsSound(w, run[0]);
      RunKeepsSound(Step(w, run[0]), run[1..]);
    }
  }

  // ---- What becomes of an attempt ------------------------------------------------------------------

  ghost predicate Mentions(h: seq<Attempt>, fence: nat) { exists i :: 0 <= i < |h| && h[i].fence == fence }

  /**
   Withdrawing a running job keeps its attempt in the history exactly when the
   withdrawal had read the job under the present lease; otherwise the history it
   writes back is the one from before the claim.
   */
  lemma WithdrawalKeepsAttemptIff(w: World, call: nat)
    requires Inv(w) && Sound(w) && call in w.flights && (w.flights[call].Cancelling? || w.flights[call].Superseding?)
    requires Touches(w, Commit(call), w.flights[call].job.id) && w.db.jobs[w.flights[call].job.id].state.Leased?
    ensures var f := w.flights[call];
      var j, j' := w.db.jobs[f.job.id], JobAfter(w, Commit(call), f.job.id);
      && (Mentions(j'.history, j.fence) <==> f.job.fence == j.fence)
      && (f.job.fence == j.fence ==> j'.history == CloseHistory(j.history, f.readAt, None))
  {
    var f := w.flights[call];
    var j := w.db.jobs[f.job.id];
    HistoryStep(w, Commit(call), f.job.id);
    EffectLandsOnRecord(w, Commit(call), f.job.id);
    ClosedMentionsIff(f.job, j, f.readAt);
  }

  lemma ClosedMentionsIff(snap: Job, j: Job, at: nat)
    requires j.state.Leased? && RecordSound(j) && EntriesBounded(snap) && Agrees(snap, j) && snap.fence <= j.fence
    ensures Mentions(CloseHistory(snap.history, at, None), j.fence) <==> snap.fence == j.fence
  {
    ClosingKeepsBounds(snap.history, at, None, snap.fence);
    if snap.fence == j.fence {
      var h := CloseHistory(j.history, at, None);
      assert h[|h| - 1].fence == j.fence;
    }
  }

  /** A cancellation lands on the one job of a journal. */
  lemma SoloCancel(rows: Rows, now: nat, j: Job, call: nat, snap: Job, reason: string, at: nat)
    requires Reachable(Solo(rows, now, j, map[call := Cancelling(snap, reason, at)]))
    requires snap.id == j.id && snap.scope == j.scope && !Terminal(j.state)
    ensures Reachable(Solo(rows, now, Withdrawn(j, snap, Cancelled, reason, at, now), map[]))
  {
    var flights: map<nat, Flight> := map[call := Cancelling(snap, reason, at)];
    var w := Solo(rows, now, j, flights);
    ReachableStep(w, Commit(call));
    var j' := Withdrawn(j, snap, Cancelled, reason, at, now);
    assert w.db.jobs[j.id := j'] == map[j.id := j'];
    assert flights - {call} == map[];
  }

  lemma SoloBeginCancel(rows: Rows, now: nat, j: Job, call: nat, reason: string)
    requires Reachable(Solo(rows, now, j, map[])) && !Terminal(j.state)
    ensures Reachable(Solo(rows, now, j, map[call := Cancelling(j, reason, now)]))
  {
    var w := Solo(rows, now, j, map[]);
    ReachableStep(w, Begin(call, Cancelling(j, reason, now)));
    assert map[][call := Cancelling(j, reason, now)] == map[call := Cancelling(j, reason, now)];
  }

  const PLAIN := Request("s", "k", [], "null", Budget(2, 10, None, None), "")

  /** It happens: a cancel read before the claim and landing after it leaves one attempt and no trace of it. */
  lemma CancelErasesAttempt() returns (w: World, id: string)
    ensures Reachable(w) && id in w.db.jobs
    ensures var j := w.db.jobs[id]; j.state.Cancelled? && j.attempts == 1 && j.history == []
  {
    var j0, cancel := NewJob("a", PLAIN, 0), Cancelling(NewJob("a", PLAIN, 0), "stop", 0);
    SoloAccept(map[], 0, "a", PLAIN);
    SoloBeginCancel(map[], 0, j0, 7, "stop");
    var j1 := ClaimBesideCancel(j0, cancel);
    SoloCancel(map[], 0, j1, 7, j0, "stop", 0);
    w, id := Solo(map[], 0, Withdrawn(j1, j0, Cancelled, "stop", 0, 0), map[]), "a";
  }

  lemma ClaimBesideCancel(j0: Job, cancel: Flight) returns (j1: Job)
    requires j0 == NewJob("a", PLAIN, 0) && Reachable(Solo(map[], 0, j0, map[7 := cancel]))
    ensures j1 == Claimed(j0, j0, "w", 10, 0) && Reachable(Solo(map[], 0, j1, map[7 := cancel]))
  {
    var begun: map<nat, Flight> := map[7 := cancel];
    SoloScan(map[], 0, j0, begun, 0, "w");
    var scanned := begun[0 := Scanned("w", [j0])];
    SoloChoose(map[], 0, j0, scanned, 0, "w", j0);
    var taking := scanned[0 := Taking("w", j0, 10, 0, [])];
    SoloTake(map[], 0, j0, taking, 0, "w", j0, 10, 0);
    j1 := Claimed(j0, j0, "w", 10, 0);
    assert taking - {0} == begun;
  }
}
