/**
 Runs of the journal from its beginning: what reachable worlds keep beside the
 invariant, how the clock moves, and the small runs of a journal with one job.
 */
module JournalRuns {
  import opened Jobs
  import opened Journal
  import opened JournalSafety
  import opened JournalIntents

  // ---- The clock ----------------------------------------------------------------------

  /** When an operation took the time it will record. */
  function ReadTime(f: Flight): nat {
    match f
    case Taking(_, _, _, at, _) => at
    case Completing(_, _, _, _, at) => at
    case Failing(_, _, _, _, _, at) => at
    case Cancelling(_, _, at) => at
    case Superseding(_, _, _, at) => at
    case _ => 0
  }

  /** Nothing was created or read in the future. */
  ghost predicate Timely(w: World) {
    && (forall k :: k in w.db.jobs ==> w.db.jobs[k].createdAt <= w.db.now)
    && (forall c :: c in w.flights ==> ReadTime(w.flights[c]) <= w.db.now)
  }

  /** A step moves the clock forward, keeps old jobs' birthdays and creates jobs now. */
  lemma StepCreatesNow(w: World, a: Action)
    requires Inv(w) && Enabled(w, a)
    ensures var w' := Step(w, a);
      && w'.db.now >= w.db.now
      && (forall k :: k in w.db.jobs ==> k in w'.db.jobs && w'.db.jobs[k].createdAt == w.db.jobs[k].createdAt)
      && (forall k :: k in w'.db.jobs && k !in w.db.jobs ==> w'.db.jobs[k].createdAt == w.db.now)
  {
    StepKeepsInv(w, a);
    match a
    case CommitIntents(write) => if CommitWrite(w.db, write).Some? { WriteCreatesNow(w.db, write); }
    case Accept(id, r) =>
    case Commit(call) => UpdateKeepsBirthday(w.db, w.flights[call]);
    case _ =>
  }

  lemma WriteCreatesNow(db: Db, write: Write)
    requires CommitWrite(db, write).Some?
    ensures var db' := CommitWrite(db, write).value;
      && db'.now == db.now
      && (forall k :: k in db.jobs ==> k in db'.jobs && db'.jobs[k] == db.jobs[k])
      && (forall k :: k in db'.jobs && k !in db.jobs ==> db'.jobs[k].createdAt == db.now)
  {
    WriteCommitsIff(db, write);
    var db' := CommitWrite(db, write).value;
    forall k | k in db'.jobs && k !in db.jobs ensures db'.jobs[k].createdAt == db.now {
      assert Declares(write.slots, k);
    }
  }

  lemma UpdateKeepsBirthday(db: Db, f: Flight)
    ensures var jobs := CommitJobs(db, f);
      jobs.Keys == db.jobs.Keys && forall k :: k in db.jobs ==> jobs[k].createdAt == db.jobs[k].createdAt
  {
  }

  lemma StepKeepsTimely(w: World, a: Action)
    requires Inv(w) && Timely(w) && Enabled(w, a)
    ensures Timely(Step(w, a))
  {
    StepCreatesNow(w, a);
    var w' := Step(w, a);
    forall k | k in w'.db.jobs ensures w'.db.jobs[k].createdAt <= w'.db.now {
      assert k in w.db.jobs ==> w.db.jobs[k].createdAt <= w.db.now;
    }
  }

  lemma {:induction false} RunKeepsTimely(w: World, run: seq<Action>)
    requires Inv(w) && Timely(w) && Legal(w, run)
    ensures Inv(Exec(w, run)) && Timely(Exec(w, run)) && Exec(w, run).db.now >= w.db.now
    decreases |run|
  {
    if run != [] {
      StepKeepsInv(w, run[0]);
      StepKeepsTimely(w, run[0]);
      StepCreatesNow(w, run[0]);
      RunKeepsTimely(Step(w, run[0]), run[1..]);
    }
  }

  // ---- Reachable worlds ---------------------------------------------------------------------

  function Start(rows: Rows, now: nat): World { World(Db(map[], rows, now), map[]) }

  ghost predicate Reachable(w: World) {
    exists rows, now, run :: Legal(Start(rows, now), run) && Exec(Start(rows, now), run) == w
  }

  lemma ReachableIsSound(w: World)
    requires Reachable(w)
    ensures Inv(w) && Timely(w)
  {
    var rows, now, run :| Legal(Start(rows, now), run) && Exec(Start(rows, now), run) == w;
    EmptyJournalIsSound(rows, now);
    RunKeepsTimely(Start(rows, now), run);
  }

  lemma {:induction false} RunExtends(w: World, run: seq<Action>, a: Action)
    requires Legal(w, run) && Enabled(Exec(w, run), a)
    ensures Legal(w, run + [a]) && Exec(w, run + [a]) == Step(Exec(w, run), a)
    decreases |run|
  {
    if run == [] {
      assert run + [a] == [a];
      assert Legal(Step(w, a), []);
    } else {
      assert (run + [a])[0] == run[0] && (run + [a])[1..] == run[1..] + [a];
      RunExtends(Step(w, run[0]), run[1..], a);
    }
  }

  lemma ReachableStep(w: World, a: Action)
    requires Reachable(w) && Enabled(w, a)
    ensures Reachable(Step(w, a))
  {
    var rows, now, run :| Legal(Start(rows, now), run) && Exec(Start(rows, now), run) == w;
    RunExtends(Start(rows, now), run, a);
    assert Exec(Start(rows, now), run + [a]) == Step(w, a);
  }

  lemma StartIsReachable(rows: Rows, now: nat)
    ensures Reachable(Start(rows, now))
  {
    assert Legal(Start(rows, now), []) && Exec(Start(rows, now), []) == Start(rows, now);
  }

  // ---- A journal with one job ----------------------------------------------------------------

  function Solo(rows: Rows, now: nat, j: Job, flights: map<nat, Flight>): World {
    World(Db(map[j.id := j], rows, now), flights)
  }

  lemma SoloAccept(rows: Rows, now: nat, id: string, r: Request)
    requires ValidRequest(r) && InputsHold(rows, r.scope, r.inputs)
    ensures Reachable(Solo(rows, now, NewJob(id, r, now), map[]))
  {
    StartIsReachable(rows, now);
    ReachableStep(Start(rows, now), Accept(id, r));
    assert map[][id := NewJob(id, r, now)] == map[id := NewJob(id, r, now)];
  }

  lemma SoloTick(rows: Rows, now: nat, j: Job, flights: map<nat, Flight>, ms: nat)
    requires Reachable(Solo(rows, now, j, flights))
    ensures Reachable(Solo(rows, now + ms, j, flights))
  {
    ReachableStep(Solo(rows, now, j, flights), Tick(ms));
  }

  lemma SoloScan(rows: Rows, now: nat, j: Job, flights: map<nat, Flight>, call: nat, worker: string)
    requires Reachable(Solo(rows, now, j, flights)) && Due(j, now) && call !in flights
    ensures Reachable(Solo(rows, now, j, flights[call := Scanned(worker, [j])]))
  {
    var w := Solo(rows, now, j, flights);
    assert IsScan(w.db, [j.scope], [j.kind], [j]);
    ReachableStep(w, Begin(call, Scanned(worker, [j])));
  }

  lemma SoloChoose(rows: Rows, now: nat, j: Job, flights: map<nat, Flight>, call: nat, worker: string, snap: Job)
    requires Reachable(Solo(rows, now, j, flights)) && call in flights && flights[call] == Scanned(worker, [snap])
    requires Choose(snap, now).Take?
    ensures Reachable(Solo(rows, now, j, flights[call := Taking(worker, snap, Choose(snap, now).until, now, [])]))
  {
    ReachableStep(Solo(rows, now, j, flights), Commit(call));
    assert [snap][1..] == [];
  }

  lemma SoloTake(rows: Rows, now: nat, j: Job, flights: map<nat, Flight>, call: nat, worker: string, snap: Job,
                 until: nat, at: nat)
    requires Reachable(Solo(rows, now, j, flights)) && call in flights
    requires flights[call] == Taking(worker, snap, until, at, []) && snap.id == j.id
    requires Due(j, now) && j.fence == snap.fence
    ensures Reachable(Solo(rows, now, Claimed(j, snap, worker, until, at), flights - {call}))
  {
    var w := Solo(rows, now, j, flights);
    ReachableStep(w, Commit(call));
    assert w.db.jobs[j.id := Claimed(j, snap, worker, until, at)] == map[j.id := Claimed(j, snap, worker, until, at)];
  }

  /** Scan, choose and take without interference. */
  lemma SoloClaim(rows: Rows, now: nat, j: Job, worker: string)
    requires Reachable(Solo(rows, now, j, map[])) && Due(j, now) && Choose(j, now).Take?
    ensures Reachable(Solo(rows, now, Claimed(j, j, worker, Choose(j, now).until, now), map[]))
  {
    SoloScan(rows, now, j, map[], 0, worker);
    var scanned: map<nat, Flight> := map[0 := Scanned(worker, [j])];
    assert map[][0 := Scanned(worker, [j])] == scanned;
    SoloChoose(rows, now, j, scanned, 0, worker, j);
    var taking: map<nat, Flight> := map[0 := Taking(worker, j, Choose(j, now).until, now, [])];
    assert scanned[0 := Taking(worker, j, Choose(j, now).until, now, [])] == taking;
    SoloTake(rows, now, j, taking, 0, worker, j, Choose(j, now).until, now);
    assert taking - {0} == map[];
  }

  lemma SoloFail(rows: Rows, now: nat, j: Job, flights: map<nat, Flight>, call: nat, worker: string, e: JobError)
    requires Reachable(Solo(rows, now, j, flights)) && call !in flights && Holds(j, j.fence, worker)
    ensures Reachable(Solo(rows, now, Failure(j, j, e, PlanFailure(j, now, e), now), flights))
  {
    var w, plan := Solo(rows, now, j, flights), PlanFailure(j, now, e);
    var f := Failing(j, j.fence, worker, e, plan, now);
    ReachableStep(w, Begin(call, f));
    var begun := Solo(rows, now, j, flights[call := f]);
    assert Step(w, Begin(call, f)) == begun;
    ReachableStep(begun, Commit(call));
    assert flights[call := f] - {call} == flights;
    assert begun.db.jobs[j.id := Failure(j, j, e, plan, now)] == map[j.id := Failure(j, j, e, plan, now)];
  }
}
