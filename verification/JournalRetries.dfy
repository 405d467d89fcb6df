/**
 Retries and deadlines over runs of the journal: what a landed failure records, when
 the next attempt can start, and which attempts start past their deadline.
 */
module JournalRetries {
  import opened Wrappers
  import opened Jobs
  import opened Journal
  import opened JournalSafety
  import opened JournalLeases
  import opened JournalRuns

  // ---- What a failure records -----------------------------------------------------------

  /** A failure of `f` lands in this step. */
  ghost predicate FailureLands(w: World, call: nat) {
    && Reachable(w)
    && call in w.flights
    && w.flights[call].Failing?
    && Touches(w, Commit(call), w.flights[call].job.id)
  }

  /** The failed job's record after the step. */
  ghost function FailedRecord(w: World, call: nat): Job
    requires FailureLands(w, call)
  {
    ReachableIsSound(w);
    JobAfter(w, Commit(call), w.flights[call].job.id)
  }

  /**
   In every reachable world a landed failure is retried if and only if it is
   retryable, attempts remain and the deadline was ahead when the record was read;
   it is due again after the backoff, and terminal otherwise. The attempts counted
   are those of the record read, which are the current ones for every worker that
   fails under a fence it had been granted.
   */
  lemma LandedFailureIsRetriedIff(w: World, call: nat)
    requires FailureLands(w, call)
    ensures var f := w.flights[call];
      var j, j' := w.db.jobs[f.job.id], FailedRecord(w, call);
      && f.readAt <= w.db.now
      && (f.fence <= f.job.fence ==> f.job.attempts == j.attempts)
      && (j'.state.Pending? <==>
            && f.error.retryable && f.job.attempts < j.budget.maxAttempts
            && (j.expiresAt.Some? ==> f.readAt < j.expiresAt.value))
      && (!j'.state.Pending? ==> j'.state.Failed? && j'.notBefore.None?)
      && (j'.state.Pending? ==> j'.notBefore == Some(NowPlus(f.readAt, Backoff(j.budget, f.job.attempts))))
      && j'.checkpoint == j.checkpoint && j'.error == Some(f.error) && j'.attempts == j.attempts
  {
    ReachableIsSound(w);
    var f := w.flights[call];
    EffectLandsOnRecord(w, Commit(call), f.job.id);
    OnlyGuardedCommitsTouch(w, Commit(call), f.job.id);
    assert ReadTime(f) <= w.db.now;
  }

  /** The backoff a landed failure asks for. */
  ghost function Wait(w: World, call: nat): nat
    requires FailureLands(w, call)
  {
    Backoff(w.db.jobs[w.flights[call].job.id].budget, w.flights[call].job.attempts)
  }

  /**
   The recorded due time is the backoff away if and only if the sum is still a
   timestamp; past that the clock arithmetic collapses and the retry is due at once.
   It is within the deadline if and only if the backoff fits before the deadline or
   collapses.
   */
  lemma RecordedDueTimeIff(w: World, call: nat)
    requires FailureLands(w, call) && FailedRecord(w, call).state.Pending?
    ensures var f, j' := w.flights[call], FailedRecord(w, call);
      var sum := f.readAt + Wait(w, call);
      && j'.notBefore.Some?
      && (j'.notBefore.value >= sum <==> sum <= TIMESTAMP_MAX || Wait(w, call) == 0)
      && (sum > TIMESTAMP_MAX ==> j'.notBefore.value == f.readAt <= w.db.now)
      && (j'.expiresAt.Some? ==>
            (j'.notBefore.value <= j'.expiresAt.value <==> sum <= j'.expiresAt.value || sum > TIMESTAMP_MAX))
  {
    LandedFailureIsRetriedIff(w, call);
    ReachableIsSound(w);
    var f := w.flights[call];
    EffectLandsOnRecord(w, Commit(call), f.job.id);
    OnlyGuardedCommitsTouch(w, Commit(call), f.job.id);
  }

  // ---- When the next attempt starts ----------------------------------------------------------

  /** One step from a pending job: it stays as it is, is taken once due, or ends. */
  lemma PendingStep(w: World, a: Action, id: string)
    requires Inv(w) && Enabled(w, a) && id in w.db.jobs && w.db.jobs[id].state.Pending?
    ensures var j, j' := w.db.jobs[id], JobAfter(w, a, id);
      || j' == j
      || (j'.fence == j.fence + 1 && j'.state.Leased? && Due(j, w.db.now))
      || (Terminal(j'.state) && j'.fence == j.fence)
  {
    OnlyGuardedCommitsTouch(w, a, id);
    if Touches(w, a, id) {
      PendingUpdate(w.db, w.db.jobs[id], w.flights[a.call]);
    }
  }

  lemma PendingUpdate(db: Db, j: Job, f: Flight)
    requires j.state.Pending? && Updated(db, j, f).Some?
    ensures var j' := Updated(db, j, f).value;
      || (j'.fence == j.fence + 1 && j'.state.Leased? && Due(j, db.now))
      || (Terminal(j'.state) && j'.fence == j.fence)
  {
  }

  /**
   No attempt before its time: from a pending job due at `t`, in every continuation
   in which the fence has grown, the clock had reached `t`.
   */
  lemma {:induction false} NoAttemptBeforeDue(w: World, run: seq<Action>, id: string, t: nat)
    requires Inv(w) && Timely(w) && Legal(w, run) && id in w.db.jobs
    requires w.db.jobs[id].state.Pending? && w.db.jobs[id].notBefore == Some(t)
    ensures var w' := Exec(w, run);
      id in w'.db.jobs && (w'.db.jobs[id].fence > w.db.jobs[id].fence ==> w'.db.now >= t)
    decreases |run|
  {
    if run != [] {
      var w1 := DueStep(w, run[0], id, t);
      RunKeepsTimely(w1, run[1..]);
      RunKeepsInv(w1, run[1..]);
      if w1.db.jobs[id] == w.db.jobs[id] {
        NoAttemptBeforeDue(w1, run[1..], id, t);
      }
    }
  }

  lemma DueStep(w: World, a: Action, id: string, t: nat) returns (w1: World)
    requires Inv(w) && Timely(w) && Enabled(w, a) && id in w.db.jobs
    requires w.db.jobs[id].state.Pending? && w.db.jobs[id].notBefore == Some(t)
    ensures w1 == Step(w, a) && Inv(w1) && Timely(w1) && w1.db.now >= w.db.now && id in w1.db.jobs
    ensures var j, j' := w.db.jobs[id], w1.db.jobs[id];
      j' == j || w1.db.now >= t || (Terminal(j'.state) && j'.fence == j.fence)
  {
    w1 := Step(w, a);
    PendingStep(w, a, id);
    StepKeepsInv(w, a);
    StepKeepsTimely(w, a);
    StepCreatesNow(w, a);
  }

  /**
   Backoff over runs: after a landed failure that will be retried, the next attempt
   starts no earlier than the backoff after the failure was read, in every
   continuation, provided the sum is a timestamp.
   */
  lemma NextAttemptWaitsTheBackoff(w: World, call: nat, run: seq<Action>)
    requires FailureLands(w, call) && FailedRecord(w, call).state.Pending?
    requires Legal(Step(w, Commit(call)), run)
    ensures var f, w' := w.flights[call], Exec(Step(w, Commit(call)), run);
      && f.job.id in w'.db.jobs
      && (w'.db.jobs[f.job.id].fence > FailedRecord(w, call).fence ==>
            && w'.db.now >= NowPlus(f.readAt, Wait(w, call))
            && (f.readAt + Wait(w, call) <= TIMESTAMP_MAX ==> w'.db.now >= f.readAt + Wait(w, call)))
  {
    ReachableIsSound(w);
    LandedFailureIsRetriedIff(w, call);
    var f, w1 := w.flights[call], Step(w, Commit(call));
    StepKeepsInv(w, Commit(call));
    StepKeepsTimely(w, Commit(call));
    assert w1.db.jobs[f.job.id] == FailedRecord(w, call);
    NoAttemptBeforeDue(w1, run, f.job.id, NowPlus(f.readAt, Wait(w, call)));
  }

  const SMALL := Request("s", "k", [], "null", Budget(2, 10, None, Some(15)), "")
  const EAGER := Request("s", "k", [], "null", Budget(2, 10, Some(U64_MAX), None), "")
  const OOPS := JobError("e", "oops", true)

  /** The collapse is real: under the largest base the second attempt starts at the very instant of the failure. */
  lemma CollapsedBackoffDoesNotWait() returns (w: World, id: string)
    ensures Reachable(w) && w.db.now == 1 && id in w.db.jobs
    ensures w.db.jobs[id].attempts == 2 && w.db.jobs[id].error == Some(OOPS)
    ensures Backoff(w.db.jobs[id].budget, 1) == U64_MAX
  {
    var j0 := NewJob("a", EAGER, 1);
    SoloAccept(map[], 1, "a", EAGER);
    SoloClaim(map[], 1, j0, "w");
    var j1 := Claimed(j0, j0, "w", 11, 1);
    SoloFail(map[], 1, j1, map[], 0, "w", OOPS);
    BackoffIsBounded(j1.budget, 1);
    assert Shift(1) == 2;
    assert PlanFailure(j1, 1, OOPS) == FailPlan(true, Some(1), None);
    var j2 := Failure(j1, j1, OOPS, PlanFailure(j1, 1, OOPS), 1);
    SoloClaim(map[], 1, j2, "v");
    w, id := Solo(map[], 1, Claimed(j2, j2, "v", 11, 1), map[]), "a";
  }

  // ---- Deadlines -----------------------------------------------------------------------------

  /** The world after the next two commits of one operation. */
  ghost function TwoCommits(w: World, call: nat): World
    requires Inv(w) && call in w.flights && w.flights[call].Scanned? && w.flights[call].todo != []
  {
    CommitFlight(CommitFlight(w, call), call)
  }

  /**
   A claim whose scan found a job past its deadline starts an attempt on it if and
   only if it takes it over from an expired lease with attempts left: the deadline is
   checked on pending rows only.
   */
  lemma TakenPastDeadlineIff(w: World, call: nat, j: Job)
    requires Inv(w) && call in w.flights && w.flights[call].Scanned? && w.flights[call].todo != []
    requires w.flights[call].todo[0] == j && Current(w.db, j) && Due(j, w.db.now)
    requires j.expiresAt.Some? && j.expiresAt.value <= w.db.now
    ensures var w' := TwoCommits(w, call);
      && j.id in w'.db.jobs
      && (w'.db.jobs[j.id].fence > j.fence <==> j.state.Leased? && j.attempts < j.budget.maxAttempts)
      && (w'.db.jobs[j.id].fence > j.fence ==>
            var j' := w'.db.jobs[j.id];
            && Holds(j', j.fence + 1, w.flights[call].worker) && j'.attempts == j.attempts + 1
            && j'.leaseUntil.Some? && j'.leaseUntil.value >= j.expiresAt.value)
  {
    var w1 := CommitFlight(w, call);
    assert w1.db.jobs == w.db.jobs;
  }

  /** A landed claim that chose past the deadline had read a lease, never a pending row. */
  lemma LandedClaimPastDeadline(w: World, call: nat)
    requires Inv(w) && call in w.flights && w.flights[call].Taking?
    requires Touches(w, Commit(call), w.flights[call].job.id)
    requires var j := w.db.jobs[w.flights[call].job.id];
      j.expiresAt.Some? && j.expiresAt.value <= w.flights[call].readAt
    ensures !w.flights[call].job.state.Pending?
  {
    EffectLandsOnRecord(w, Commit(call), w.flights[call].job.id);
  }

  /** A run that starts an attempt past the deadline: accepted at 0 with 15 to live, taken at 0 and again at 20. */
  lemma AttemptStartsPastDeadline() returns (w: World, id: string)
    ensures Reachable(w) && w.db.now == 20 && id in w.db.jobs
    ensures var j := w.db.jobs[id];
      j.attempts == 2 && j.state.Leased? && j.expiresAt == Some(15) && j.leaseUntil == Some(30)
  {
    var j0 := NewJob("a", SMALL, 0);
    SoloAccept(map[], 0, "a", SMALL);
    SoloClaim(map[], 0, j0, "w");
    var j1 := Claimed(j0, j0, "w", 10, 0);
    SoloTick(map[], 0, j1, map[], 20);
    SoloClaim(map[], 20, j1, "v");
    w, id := Solo(map[], 20, Claimed(j1, j1, "v", 30, 20), map[]), "a";
  }

  // ---- Retries due past the deadline --------------------------------------------------------------

  /** No claim in flight has read the job under its current fence. */
  ghost predicate UnreadByClaims(w: World, id: string)
    requires id in w.db.jobs
  {
    forall c :: c in w.flights && (w.flights[c].Scanned? || w.flights[c].Taking? || w.flights[c].Expiring?) ==>
      forall s :: s in Snapshots(w.flights[c]) && s.id == id ==> s.fence != w.db.jobs[id].fence
  }

  /** What the claims in flight may know of a late pending job: nothing, or that it is due and so expired. */
  ghost predicate OnlyReadLate(w: World, j: Job) {
    && Current(w.db, j) && (j.notBefore.None? ==> j.createdAt <= w.db.now)
    && forall c :: c in w.flights ==> FlightReadLate(w.flights[c], w.db.now, j)
  }

  predicate FlightReadLate(f: Flight, now: nat, j: Job) {
    match f
    case Scanned(_, todo) => ReadLate(todo, now, j)
    case Taking(_, snap, _, _, todo) => (snap.id == j.id ==> snap.fence != j.fence) && ReadLate(todo, now, j)
    case Expiring(_, _, todo) => ReadLate(todo, now, j)
    case _ => true
  }

  predicate ReadLate(todo: seq<Job>, now: nat, j: Job) {
    forall s :: s in todo && s.id == j.id && s.fence == j.fence ==>
      s == j && j.expiresAt.Some? && j.expiresAt.value <= now
  }

  /** When a pending job falls due: at its due time, or as soon as it exists. */
  function DueTime(j: Job): nat { if j.notBefore.Some? then j.notBefore.value else j.createdAt }

  /** It falls due at its deadline or later. */
  predicate Late(j: Job) { j.state.Pending? && j.expiresAt.Some? && j.expiresAt.value <= DueTime(j) }

  /** A step from there: the job is untouched and still only read late, or it has ended. */
  lemma LateStep(w: World, a: Action, j: Job)
    requires Inv(w) && Enabled(w, a) && OnlyReadLate(w, j) && Late(j)
    ensures OnlyReadLate(Step(w, a), j) || Terminal(JobAfter(w, a, j.id).state)
  {
    OnlyGuardedCommitsTouch(w, a, j.id);
    StepKeepsInv(w, a);
    StepCreatesNow(w, a);
    var w' := Step(w, a);
    if JobAfter(w, a, j.id) == j {
      forall c | c in w'.flights ensures FlightReadLate(w'.flights[c], w'.db.now, j) {
        match a
        case Begin(call, f) =>
          if c == call && f.Scanned? {
            forall s | s in f.todo && s.id == j.id ensures s == j && j.expiresAt.value <= w.db.now {
            }
          } else if c != call {
            assert FlightReadLate(w.flights[c], w.db.now, j);
          }
        case Commit(call) =>
          assert FlightReadLate(w.flights[c], w.db.now, j);
          if c == call {
            NextReadsLate(w.db, w.flights[call], j);
          }
        case _ =>
          assert FlightReadLate(w.flights[c], w.db.now, j);
          LaterReadsLate(w.flights[c], w.db.now, w'.db.now, j);
      }
    } else {
      LateCommit(w, a, j);
    }
  }

  lemma LaterReadsLate(f: Flight, now: nat, later: nat, j: Job)
    requires FlightReadLate(f, now, j) && now <= later
    ensures FlightReadLate(f, later, j)
  {
  }

  lemma NextReadsLate(db: Db, f: Flight, j: Job)
    requires FlightReadLate(f, db.now, j) && Late(j) && NextFlight(db, f).Some?
    ensures FlightReadLate(NextFlight(db, f).value, db.now, j)
  {
    match f
    case Scanned(worker, todo) =>
      assert forall s :: s in todo[1..] ==> s in todo;
      assert todo[0] in todo;
    case _ =>
  }

  lemma LateCommit(w: World, a: Action, j: Job)
    requires Inv(w) && OnlyReadLate(w, j) && Late(j) && Touches(w, a, j.id)
    ensures Terminal(Updated(w.db, j, w.flights[a.call]).value.state)
  {
    var f := w.flights[a.call];
    assert FlightReadLate(f, w.db.now, j);
  }

  /**
   A retry due at the deadline or later is never run, in any continuation, unless a claim
   had read the job under this fence before: whatever touches it ends it.
   */
  lemma LateRetryNeverRuns(w: World, run: seq<Action>, id: string)
    requires Inv(w) && Legal(w, run) && id in w.db.jobs && Late(w.db.jobs[id]) && UnreadByClaims(w, id)
    requires w.db.jobs[id].notBefore.None? ==> w.db.jobs[id].createdAt <= w.db.now
    ensures var w' := Exec(w, run);
      && id in w'.db.jobs
      && w'.db.jobs[id].fence == w.db.jobs[id].fence
      && (w'.db.jobs[id] == w.db.jobs[id] || Terminal(w'.db.jobs[id].state))
  {
    var j := w.db.jobs[id];
    forall c | c in w.flights ensures FlightReadLate(w.flights[c], w.db.now, j) {
      UnreadIsLate(w.flights[c], w.db.now, j);
    }
    LateRun(w, run, j);
  }

  lemma UnreadIsLate(f: Flight, now: nat, j: Job)
    requires f.Scanned? || f.Taking? || f.Expiring? ==>
      forall s :: s in Snapshots(f) && s.id == j.id ==> s.fence != j.fence
    ensures FlightReadLate(f, now, j)
  {
    match f
    case Taking(_, snap, _, _, todo) =>
      assert snap in Snapshots(f);
      assert forall s :: s in todo ==> s in Snapshots(f);
    case Expiring(_, snap, todo) => assert forall s :: s in todo ==> s in Snapshots(f);
    case _ =>
  }

  lemma {:induction false} LateRun(w: World, run: seq<Action>, j: Job)
    requires Inv(w) && Legal(w, run) && OnlyReadLate(w, j) && Late(j)
    ensures var w' := Exec(w, run);
      && j.id in w'.db.jobs && w'.db.jobs[j.id].fence == j.fence
      && (w'.db.jobs[j.id] == j || Terminal(w'.db.jobs[j.id].state))
    decreases |run|
  {
    if run != [] {
      var w1 := Step(w, run[0]);
      StepKeepsInv(w, run[0]);
      LateStep(w, run[0], j);
      PendingStep(w, run[0], j.id);
      RunKeepsInv(w1, run[1..]);
      if OnlyReadLate(w1, j) {
        LateRun(w1, run[1..], j);
      }
    }
  }

  /**
   With such a claim it can run: the lease ends at 10, a second worker reads it then,
   the first one fails it at 10 with a retry due at 2010, and the second one's claim
   lands at 2010, long past the deadline of 15.
   */
  lemma LateRetryRunsWhenReadBefore() returns (w: World, id: string)
    ensures Reachable(w) && w.db.now == 2010 && id in w.db.jobs
    ensures var j := w.db.jobs[id];
      j.attempts == 2 && j.state.Leased? && j.expiresAt == Some(15) && j.error == Some(OOPS)
  {
    var j0 := NewJob("a", SMALL, 0);
    SoloAccept(map[], 0, "a", SMALL);
    SoloClaim(map[], 0, j0, "w");
    var j1 := Claimed(j0, j0, "w", 10, 0);
    SoloTick(map[], 0, j1, map[], 10);
    SoloScan(map[], 10, j1, map[], 0, "v");
    var scanned: map<nat, Flight> := map[0 := Scanned("v", [j1])];
    assert map[][0 := Scanned("v", [j1])] == scanned;
    SoloChoose(map[], 10, j1, scanned, 0, "v", j1);
    var taking: map<nat, Flight> := map[0 := Taking("v", j1, 20, 10, [])];
    assert scanned[0 := Taking("v", j1, 20, 10, [])] == taking;
    SoloFail(map[], 10, j1, taking, 1, "w", OOPS);
    assert Shift(1) == 2 && Backoff(j1.budget, 1) == 2000;
    assert PlanFailure(j1, 10, OOPS) == FailPlan(true, Some(2010), None);
    var j2 := Failure(j1, j1, OOPS, PlanFailure(j1, 10, OOPS), 10);
    SoloTick(map[], 10, j2, taking, 2000);
    SoloTake(map[], 2010, j2, taking, 0, "v", j1, 20, 10);
    w, id := Solo(map[], 2010, Claimed(j2, j1, "v", 20, 10), taking - {0}), "a";
  }

  // ---- Deadlines and leases past the last timestamp -------------------------------------------

  /**
   A deadline holds if and only if it is a timestamp: one past the last timestamp, like
   one of zero, is over as soon as the job exists, and every claim ends the job.
   */
  lemma DeadlineIsAheadIff(id: string, r: Request, now: nat)
    requires ValidRequest(r) && r.budget.deadlineMs.Some?
    ensures var j, d := NewJob(id, r, now), r.budget.deadlineMs.value;
      && (j.expiresAt == Some(now + d) <==> now + d <= TIMESTAMP_MAX || d == 0)
      && (Choose(j, now).Take? <==> 0 < d && now + d <= TIMESTAMP_MAX)
      && (now + d > TIMESTAMP_MAX || d == 0 ==>
            Late(j) && forall later: nat :: now <= later ==> Choose(j, later).Expire?)
  {
  }

  /** Over runs: a job accepted with such a deadline is never attempted, in any continuation. */
  lemma CollapsedDeadlineNeverRuns(w: World, id: string, r: Request, run: seq<Action>)
    requires Inv(w) && Enabled(w, Accept(id, r)) && Legal(Step(w, Accept(id, r)), run)
    requires Enqueue(w.db, id, r).0.Created? && r.budget.deadlineMs.Some?
    requires w.db.now + r.budget.deadlineMs.value > TIMESTAMP_MAX
    ensures var w' := Exec(Step(w, Accept(id, r)), run);
      && id in w'.db.jobs && w'.db.jobs[id].attempts == 0
      && (w'.db.jobs[id] == NewJob(id, r, w.db.now) || Terminal(w'.db.jobs[id].state))
  {
    var w1 := Step(w, Accept(id, r));
    StepKeepsInv(w, Accept(id, r));
    DeadlineIsAheadIff(id, r, w.db.now);
    assert w1.db.jobs[id] == NewJob(id, r, w.db.now);
    NewJobIsUnread(w, id, w1);
    LateRetryNeverRuns(w1, run, id);
    RunKeepsInv(w1, run);
    assert JobSound(Exec(w1, run).db.jobs[id]);
  }

  lemma NewJobIsUnread(w: World, id: string, w1: World)
    requires Inv(w) && id !in w.db.jobs && id in w1.db.jobs && w1.flights == w.flights
    ensures UnreadByClaims(w1, id)
  {
    forall c, s | c in w.flights && s in Snapshots(w.flights[c]) ensures s.id in w.db.jobs {
    }
  }

  /**
   A landed claim leaves a lease of the full length if and only if its end is a
   timestamp; otherwise the lease ends when it begins and the job is due at once.
   */
  lemma LandedLeaseIff(w: World, call: nat)
    requires Inv(w) && Timely(w) && call in w.flights && w.flights[call].Taking?
    requires Touches(w, Commit(call), w.flights[call].job.id)
    ensures var f := w.flights[call];
      var j' := JobAfter(w, Commit(call), f.job.id);
      var sum := f.readAt + j'.budget.leaseMs;
      && j'.leaseUntil.Some?
      && (j'.leaseUntil.value == sum <==> sum <= TIMESTAMP_MAX || j'.budget.leaseMs == 0)
      && (!Due(j', w.db.now) <==> w.db.now < sum <= TIMESTAMP_MAX)
  {
    var f := w.flights[call];
    EffectLandsOnRecord(w, Commit(call), f.job.id);
    OnlyGuardedCommitsTouch(w, Commit(call), f.job.id);
    assert ReadTime(f) <= w.db.now;
  }

  /** An effect of the current holder lands on the job. */
  ghost predicate HolderActs(w: World, a: Action, id: string) { Touches(w, a, id) && IsEffect(w.flights[a.call]) }

  ghost predicate HolderRests(w: World, run: seq<Action>, id: string)
    requires Legal(w, run)
    decreases |run|
  {
    run == [] || (!HolderActs(w, run[0], id) && HolderRests(Step(w, run[0]), run[1..], id))
  }

  /** One step from a leased job whose holder rests: it stays, is taken once the lease is over, or ends. */
  lemma LeasedStep(w: World, a: Action, id: string, until: nat)
    requires Inv(w) && Enabled(w, a) && id in w.db.jobs && !HolderActs(w, a, id)
    requires w.db.jobs[id].state.Leased? && w.db.jobs[id].leaseUntil == Some(until)
    ensures var j, j' := w.db.jobs[id], JobAfter(w, a, id);
      || j' == j
      || (j'.fence == j.fence + 1 && until <= w.db.now)
      || (Terminal(j'.state) && j'.fence == j.fence)
  {
    OnlyGuardedCommitsTouch(w, a, id);
    if Touches(w, a, id) {
      LeasedUpdate(w.db, w.db.jobs[id], w.flights[a.call], until);
    }
  }

  lemma LeasedUpdate(db: Db, j: Job, f: Flight, until: nat)
    requires j.state.Leased? && j.leaseUntil == Some(until) && !IsEffect(f) && Updated(db, j, f).Some?
    ensures var j' := Updated(db, j, f).value;
      || (j'.fence == j.fence + 1 && until <= db.now)
      || (Terminal(j'.state) && j'.fence == j.fence)
  {
  }

  /**
   Exclusivity: while its holder rests, a leased job is taken over in no continuation
   before the clock has reached the end of the lease.
   */
  lemma {:induction false} NoTakeoverBeforeLeaseEnds(w: World, run: seq<Action>, id: string, until: nat)
    requires Inv(w) && Timely(w) && Legal(w, run) && id in w.db.jobs && HolderRests(w, run, id)
    requires w.db.jobs[id].state.Leased? && w.db.jobs[id].leaseUntil == Some(until)
    ensures var w' := Exec(w, run);
      id in w'.db.jobs && (w'.db.jobs[id].fence > w.db.jobs[id].fence ==> w'.db.now >= until)
    decreases |run|
  {
    if run != [] {
      var w1 := Step(w, run[0]);
      LeasedStep(w, run[0], id, until);
      StepKeepsInv(w, run[0]);
      StepKeepsTimely(w, run[0]);
      StepCreatesNow(w, run[0]);
      RunKeepsTimely(w1, run[1..]);
      RunKeepsInv(w1, run[1..]);
      if w1.db.jobs[id] == w.db.jobs[id] {
        NoTakeoverBeforeLeaseEnds(w1, run[1..], id, until);
      }
    }
  }

  const ENDLESS := Request("s", "k", [], "null", Budget(2, U64_MAX, None, None), "")

  /** A lease of the 64-bit maximum is none: a second worker takes the job at the instant of the first claim. */
  lemma CollapsedLeaseIsNoLease() returns (w: World, id: string)
    ensures Reachable(w) && w.db.now == 1 && id in w.db.jobs
    ensures var j := w.db.jobs[id];
      j.budget.leaseMs == U64_MAX && j.attempts == 2 && |j.history| == 2
      && j.history[0].worker != j.history[1].worker && j.history[0].startedAt == j.history[1].startedAt == 1
  {
    var j0 := NewJob("a", ENDLESS, 1);
    SoloAccept(map[], 1, "a", ENDLESS);
    SoloClaim(map[], 1, j0, "w");
    var j1 := Claimed(j0, j0, "w", 1, 1);
    SoloClaim(map[], 1, j1, "v");
    w, id := Solo(map[], 1, Claimed(j1, j1, "v", 1, 1), map[]), "a";
    assert "w"[0] != "v"[0];
  }

  // ---- The last lease ---------------------------------------------------------------------------

  /**
   A job leased for its last attempt is never taken again, however long its lease has
   been expired: only its holder's own effects, a cancel or a supersede change it.
   */
  lemma LastLeaseIsNeverTakenOver(w: World, a: Action, k: string)
    requires Inv(w) && Enabled(w, a) && k in w.db.jobs
    requires w.db.jobs[k].state.Leased? && w.db.jobs[k].attempts == w.db.jobs[k].budget.maxAttempts
    ensures JobAfter(w, a, k) != w.db.jobs[k] ==>
      && Touches(w, a, k)
      && (var f := w.flights[a.call];
          || f.Cancelling? || f.Superseding?
          || (IsEffect(f) && Holds(w.db.jobs[k], f.fence, f.worker)))
  {
    OnlyGuardedCommitsTouch(w, a, k);
    if Touches(w, a, k) {
      EffectLandsOnRecord(w, a, k);
    }
  }

  /** Rows the claim loop skips: leased for the last attempt. They stay due and are scanned first. */
  lemma ExhaustedLeaseIsSkipped(j: Job, now: nat)
    requires j.state.Leased? && j.attempts >= j.budget.maxAttempts
    ensures Choose(j, now) == Skip
    ensures forall later: nat :: j.leaseUntil.Some? && j.leaseUntil.value <= now <= later ==> Due(j, later)
  {
  }
}
