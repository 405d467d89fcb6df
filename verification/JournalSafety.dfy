/**
 Runs of the journal: any interleaving of reads, guarded commits, enqueues,
 writes with intents, foreground changes to rows and the clock. What every step
 keeps, and what holds over whole runs.
 */
module JournalSafety {
  import opened Wrappers
  import opened Dedup
  import opened Jobs
  import opened Journal

  datatype World = World(db: Db, flights: map<nat, Flight>)

  datatype Action =
    | Tick(ms: nat)
    | Foreground(key: (EndpointKind, string), row: Option<Row>)
    | Accept(id: string, request: Request)
    | CommitIntents(write: Write)
    | Begin(call: nat, flight: Flight)
    | Commit(call: nat)
    | Drop(call: nat)

  // ---- Steps ----------------------------------------------------------------------

  predicate Current(db: Db, j: Job) { j.id in db.jobs && db.jobs[j.id] == j }

  /** `f` is what an operation knows right after reading `db`. */
  ghost predicate JustRead(db: Db, f: Flight) {
    match f
    case Scanned(_, todo) => exists scopes, kinds :: IsScan(db, scopes, kinds, todo)
    case Renewing(j, _, _, until) => Current(db, j) && until == NowPlus(db.now, j.budget.leaseMs)
    case Checkpointing(j, _, _, _) => Current(db, j)
    case Completing(j, _, _, _, at) => Current(db, j) && at == db.now
    case Failing(j, _, _, e, plan, at) => Current(db, j) && at == db.now && plan == PlanFailure(j, db.now, e)
    case Cancelling(j, _, at) => Current(db, j) && !Terminal(j.state) && at == db.now
    case Superseding(j, replacement, _, at) =>
      && Current(db, j) && !Terminal(j.state) && at == db.now
      && replacement in db.jobs && db.jobs[replacement].scope == j.scope
    case _ => false
  }

  ghost predicate Enabled(w: World, a: Action) {
    match a
    case Accept(id, _) => id !in w.db.jobs
    case CommitIntents(write) => SlotsValid(write)
    case Begin(call, f) => call !in w.flights && JustRead(w.db, f)
    case Commit(call) => call in w.flights
    case Drop(call) => call in w.flights
    case _ => true
  }

  /** Where a claim goes after the row at the head of its scan, or after its commit. */
  function NextFlight(db: Db, f: Flight): Option<Flight> {
    match f
    case Scanned(worker, todo) =>
      if todo == [] then None
      else
        Some(match Choose(todo[0], db.now)
             case Expire => Expiring(worker, todo[0], todo[1..])
             case Skip => Scanned(worker, todo[1..])
             case Take(until) => Taking(worker, todo[0], until, db.now, todo[1..]))
    case Expiring(worker, _, todo) => Some(Scanned(worker, todo))
    case Taking(worker, snap, _, _, todo) =>
      if snap.id in db.jobs && Updated(db, db.jobs[snap.id], f).Some? then None else Some(Scanned(worker, todo))
    case _ => None
  }

  function CommitFlight(w: World, call: nat): World
    requires call in w.flights
  {
    var f := w.flights[call];
    var next := NextFlight(w.db, f);
    World(w.db.(jobs := CommitJobs(w.db, f)),
          if next.Some? then w.flights[call := next.value] else w.flights - {call})
  }

  ghost function Step(w: World, a: Action): World
    requires Enabled(w, a)
  {
    match a
    case Tick(ms) => w.(db := w.db.(now := w.db.now + ms))
    case Foreground(key, row) =>
      w.(db := w.db.(rows := if row.Some? then w.db.rows[key := row.value] else w.db.rows - {key}))
    case Accept(id, r) => w.(db := Enqueue(w.db, id, r).1)
    case CommitIntents(write) =>
      var done := CommitWrite(w.db, write);
      if done.Some? then w.(db := done.value) else w
    case Begin(call, f) => w.(flights := w.flights[call := f])
    case Commit(call) => CommitFlight(w, call)
    case Drop(call) => w.(flights := w.flights - {call})
  }

  // ---- Invariant of one record -----------------------------------------------------

  predicate JobSound(j: Job) {
    && j.attempts == j.fence <= j.budget.maxAttempts
    && j.slot == (if Terminal(j.state) then Tombstone(j.id) else Live(j.dedup))
    && KeyScope(j.dedup) == j.scope
    && (j.state.Leased? ==> j.owner.Some? && j.leaseUntil.Some? && j.fence > 0)
    && (j.result.Some? <==> j.state.Succeeded?)
  }

  /** `later` is the same job at or after `j`: identity fixed, fence grown, terminal frozen. */
  predicate Follows(j: Job, later: Job) {
    && later.id == j.id
    && later.scope == j.scope
    && later.kind == j.kind
    && later.inputs == j.inputs
    && later.dedup == j.dedup
    && later.budget == j.budget
    && later.expiresAt == j.expiresAt
    && later.createdAt == j.createdAt
    && j.fence <= later.fence
    && (Terminal(j.state) ==> later == j)
  }

  lemma FollowsTrans(a: Job, b: Job, c: Job)
    requires Follows(a, b) && Follows(b, c)
    ensures Follows(a, c)
  {
  }

  /** What a flight may assume of the record it read. */
  predicate FlightSound(f: Flight) {
    match f
    case Scanned(_, todo) => forall j :: j in todo ==> JobSound(j)
    case Taking(_, snap, until, at, todo) =>
      && JobSound(snap) && Choose(snap, at) == Take(until)
      && forall j :: j in todo ==> JobSound(j)
    case Expiring(_, snap, todo) => JobSound(snap) && forall j :: j in todo ==> JobSound(j)
    case Failing(snap, _, _, e, plan, at) => JobSound(snap) && plan == PlanFailure(snap, at, e)
    case _ => JobSound(f.job)
  }

  /** The records a flight holds. */
  function Snapshots(f: Flight): seq<Job> {
    match f
    case Scanned(_, todo) => todo
    case Taking(_, snap, _, _, todo) => [snap] + todo
    case Expiring(_, snap, todo) => [snap] + todo
    case _ => [f.job]
  }

  /** The guarded update of a sound record by a sound flight that read it earlier. */
  lemma UpdateIsSound(db: Db, j: Job, f: Flight)
    requires TargetOf(f).Some? && Updated(db, j, f).Some?
    requires JobSound(j) && FlightSound(f) && Follows(f.job, j)
    ensures var j' := Updated(db, j, f).value;
      && JobSound(j')
      && Follows(j, j')
      && !Terminal(j.state)
  {
  }

  // ---- Invariant of the world -----------------------------------------------------------

  /** At most one live job per dedup key. */
  ghost predicate LiveUnique(jobs: map<string, Job>) {
    forall a, b ::
      (a in jobs && b in jobs && !Terminal(jobs[a].state) && !Terminal(jobs[b].state)
       && jobs[a].dedup == jobs[b].dedup) ==> a == b
  }

  ghost predicate JobsSound(jobs: map<string, Job>) {
    forall k :: k in jobs ==> jobs[k].id == k && JobSound(jobs[k])
  }

  ghost predicate SnapshotsPast(jobs: map<string, Job>, f: Flight) {
    forall j :: j in Snapshots(f) ==> j.id in jobs && Follows(j, jobs[j.id])
  }

  ghost predicate Inv(w: World) {
    && JobsSound(w.db.jobs)
    && LiveUnique(w.db.jobs)
    && forall c :: c in w.flights ==> FlightSound(w.flights[c]) && SnapshotsPast(w.db.jobs, w.flights[c])
  }

  lemma EmptyJournalIsSound(rows: Rows, now: nat)
    ensures Inv(World(Db(map[], rows, now), map[]))
  {
  }

  /** Every job is still there, at or after where it was. */
  ghost predicate Evolves(jobs: map<string, Job>, jobs': map<string, Job>) {
    forall k :: k in jobs ==> k in jobs' && Follows(jobs[k], jobs'[k])
  }

  lemma EvolvesTrans(a: map<string, Job>, b: map<string, Job>, c: map<string, Job>)
    requires Evolves(a, b) && Evolves(b, c)
    ensures Evolves(a, c)
  {
    forall k | k in a ensures k in c && Follows(a[k], c[k]) {
      FollowsTrans(a[k], b[k], c[k]);
    }
  }

  lemma SnapshotsStayPast(jobs: map<string, Job>, jobs': map<string, Job>, f: Flight)
    requires SnapshotsPast(jobs, f) && Evolves(jobs, jobs')
    ensures SnapshotsPast(jobs', f)
  {
    forall j | j in Snapshots(f) ensures j.id in jobs' && Follows(j, jobs'[j.id]) {
      FollowsTrans(j, jobs[j.id], jobs'[j.id]);
    }
  }

  // ---- Each kind of step keeps it -----------------------------------------------------------

  /** Replacing one record by a sound successor. */
  lemma ReplaceKeeps(jobs: map<string, Job>, id: string, j': Job)
    requires JobsSound(jobs) && LiveUnique(jobs) && id in jobs
    requires JobSound(j') && Follows(jobs[id], j') && !Terminal(jobs[id].state)
    ensures var jobs' := jobs[id := j'];
      JobsSound(jobs') && LiveUnique(jobs') && Evolves(jobs, jobs')
  {
  }

  lemma CommitJobsKeeps(db: Db, f: Flight)
    requires JobsSound(db.jobs) && LiveUnique(db.jobs)
    requires FlightSound(f) && SnapshotsPast(db.jobs, f)
    ensures var jobs' := CommitJobs(db, f);
      JobsSound(jobs') && LiveUnique(jobs') && Evolves(db.jobs, jobs')
  {
    var id := TargetOf(f);
    if id.Some? {
      assert f.job in Snapshots(f);
      var j := db.jobs[f.job.id];
      if Updated(db, j, f).Some? {
        UpdateIsSound(db, j, f);
        ReplaceKeeps(db.jobs, j.id, Updated(db, j, f).value);
      }
    }
  }

  lemma InsertKeeps(db: Db, id: string, r: Request)
    requires JobsSound(db.jobs) && LiveUnique(db.jobs) && id !in db.jobs
    requires ValidRequest(r) && Insert(db, id, r).Ok?
    ensures var db' := Insert(db, id, r).value;
      && JobsSound(db'.jobs) && LiveUnique(db'.jobs) && Evolves(db.jobs, db'.jobs)
      && db'.rows == db.rows && db'.now == db.now
      && InputsHold(db.rows, r.scope, r.inputs)
      && db'.jobs == db.jobs[id := NewJob(id, r, db.now)]
  {
    KeyScopeOfRequest(r);
    forall k | k in db.jobs && !Terminal(db.jobs[k].state) ensures db.jobs[k].dedup != DedupOf(r) {
      assert !Holder(db.jobs[k], DedupOf(r));
    }
  }

  lemma {:induction false} InsertAllKeeps(db: Db, slots: seq<IntentSlot>)
    requires JobsSound(db.jobs) && LiveUnique(db.jobs) && InsertAll(db, slots).Some?
    requires forall i :: 0 <= i < |slots| && slots[i].ToInsert? ==> ValidRequest(slots[i].request)
    ensures var db' := InsertAll(db, slots).value;
      && JobsSound(db'.jobs) && LiveUnique(db'.jobs) && Evolves(db.jobs, db'.jobs)
      && db'.rows == db.rows && db'.now == db.now
    decreases |slots|
  {
    if slots != [] {
      assert forall i :: 0 <= i < |slots[1..]| ==> slots[1..][i] == slots[i + 1];
      match slots[0]
      case Dedup(_) => InsertAllKeeps(db, slots[1..]);
      case ToInsert(id, r) =>
        InsertKeeps(db, id, r);
        var db1 := Insert(db, id, r).value;
        InsertAllKeeps(db1, slots[1..]);
        EvolvesTrans(db.jobs, db1.jobs, InsertAll(db1, slots[1..]).value.jobs);
    }
  }

  lemma FlightsKeep(w: World, jobs': map<string, Job>)
    requires Inv(w) && Evolves(w.db.jobs, jobs')
    ensures forall c :: c in w.flights ==> FlightSound(w.flights[c]) && SnapshotsPast(jobs', w.flights[c])
  {
    forall c | c in w.flights ensures SnapshotsPast(jobs', w.flights[c]) {
      SnapshotsStayPast(w.db.jobs, jobs', w.flights[c]);
    }
  }

  lemma JustReadIsSound(db: Db, f: Flight)
    requires JobsSound(db.jobs) && JustRead(db, f)
    ensures FlightSound(f) && SnapshotsPast(db.jobs, f)
  {
    match f
    case Scanned(_, todo) =>
      forall j | j in todo ensures j.id in db.jobs && db.jobs[j.id] == j {
      }
    case _ =>
  }

  lemma NextFlightIsSound(db: Db, f: Flight)
    requires FlightSound(f) && SnapshotsPast(db.jobs, f) && NextFlight(db, f).Some?
    ensures FlightSound(NextFlight(db, f).value) && SnapshotsPast(db.jobs, NextFlight(db, f).value)
  {
    var next := NextFlight(db, f).value;
    assert forall j :: j in Snapshots(next) ==> j in Snapshots(f);
  }

  lemma CommitKeepsInv(w: World, call: nat)
    requires Inv(w) && call in w.flights
    ensures Inv(CommitFlight(w, call)) && Evolves(w.db.jobs, CommitFlight(w, call).db.jobs)
  {
    var f := w.flights[call];
    CommitJobsKeeps(w.db, f);
    FlightsKeep(w, CommitJobs(w.db, f));
    if NextFlight(w.db, f).Some? {
      NextFlightIsSound(w.db, f);
      SnapshotsStayPast(w.db.jobs, CommitJobs(w.db, f), NextFlight(w.db, f).value);
    }
  }

  lemma StepKeepsInv(w: World, a: Action)
    requires Inv(w) && Enabled(w, a)
    ensures Inv(Step(w, a)) && Evolves(w.db.jobs, Step(w, a).db.jobs)
  {
    match a
    case Accept(id, r) =>
      if ValidRequest(r) && Insert(w.db, id, r).Ok? {
        InsertKeeps(w.db, id, r);
        FlightsKeep(w, Insert(w.db, id, r).value.jobs);
      }
    case CommitIntents(write) =>
      if CommitWrite(w.db, write).Some? {
        var written := w.db.(rows := WrittenRows(w.db.rows, write));
        InsertAllKeeps(written, write.slots);
        FlightsKeep(w, CommitWrite(w.db, write).value.jobs);
      }
    case Begin(call, f) => JustReadIsSound(w.db, f);
    case Commit(call) => CommitKeepsInv(w, call);
    case _ =>
  }

  // ---- Whole runs ------------------------------------------------------------------------------

  ghost predicate Legal(w: World, run: seq<Action>)
    decreases |run|
  {
    run == [] || (Enabled(w, run[0]) && Legal(Step(w, run[0]), run[1..]))
  }

  ghost function Exec(w: World, run: seq<Action>): World
    requires Legal(w, run)
    decreases |run|
  {
    if run == [] then w else Exec(Step(w, run[0]), run[1..])
  }

  /**
   Over every run: the invariant holds, fences never fall, and a terminal record is
   never touched again, so a job succeeds at most once and its result and
   checkpoint stay as they were.
   */
  lemma {:induction false} RunKeepsInv(w: World, run: seq<Action>)
    requires Inv(w) && Legal(w, run)
    ensures Inv(Exec(w, run)) && Evolves(w.db.jobs, Exec(w, run).db.jobs)
    decreases |run|
  {
    if run != [] {
      StepKeepsInv(w, run[0]);
      RunKeepsInv(Step(w, run[0]), run[1..]);
      EvolvesTrans(w.db.jobs, Step(w, run[0]).db.jobs, Exec(w, run).db.jobs);
    }
  }

  /** A job that has succeeded is the same record in every later state. */
  lemma SucceedsAtMostOnce(w: World, run: seq<Action>, id: string)
    requires Inv(w) && Legal(w, run) && id in w.db.jobs && w.db.jobs[id].state.Succeeded?
    ensures id in Exec(w, run).db.jobs && Exec(w, run).db.jobs[id] == w.db.jobs[id]
  {
    RunKeepsInv(w, run);
  }

  /** In every reachable state one live job holds a dedup key, and attempts stay in budget. */
  lemma ReachableJobsAreBounded(rows: Rows, now: nat, run: seq<Action>)
    requires Legal(World(Db(map[], rows, now), map[]), run)
    ensures var jobs := Exec(World(Db(map[], rows, now), map[]), run).db.jobs;
      && (forall k :: k in jobs ==> jobs[k].attempts == jobs[k].fence <= jobs[k].budget.maxAttempts)
      && (forall a, b :: a in jobs && b in jobs && jobs[a].slot == jobs[b].slot ==> a == b)
      && LiveUnique(jobs)
  {
    var w := World(Db(map[], rows, now), map[]);
    EmptyJournalIsSound(rows, now);
    RunKeepsInv(w, run);
    var jobs := Exec(w, run).db.jobs;
    forall a, b | a in jobs && b in jobs && jobs[a].slot == jobs[b].slot ensures a == b {
      assert JobSound(jobs[a]) && JobSound(jobs[b]);
    }
  }
}
