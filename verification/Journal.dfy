/**
 The durable job journal as its store runs it: every operation reads a record
 first and later commits one guarded update, so that any number of workers,
 operators and foreground writers interleave between the two. `Flight` is an
 operation between its read and its commit.
 */
module Journal {
  import opened Wrappers
  import opened Dedup
  import opened Jobs

  /** A versioned row of the memory plane; `open` until superseded. */
  datatype Row = Row(scope: string, version: nat, open: bool)

  type Rows = map<(EndpointKind, string), Row>

  datatype Db = Db(jobs: map<string, Job>, rows: Rows, now: nat)

  // ---- Inputs ---------------------------------------------------------------------

  /** The row exists in the scope, at the pinned revision when its kind has one. */
  predicate InputHolds(rows: Rows, scope: string, i: Input) {
    && (i.kind, i.id) in rows
    && rows[(i.kind, i.id)].scope == scope
    && (Versioned(i.kind) && i.revision.Some? ==> rows[(i.kind, i.id)].version == i.revision.value)
  }

  predicate InputsHold(rows: Rows, scope: string, inputs: seq<Input>) {
    forall i :: i in inputs ==> InputHolds(rows, scope, i)
  }

  // ---- Enqueue ------------------------------------------------------------------------

  predicate Holder(j: Job, key: DedupKey) { j.slot == Live(key) }

  datatype EnqueueError = InvalidShape | BadInput | SlotTaken

  datatype Enqueued = Created(job: Job) | Deduplicated(job: Job) | Rejected(error: EnqueueError)

  /** The insert inside a transaction: inputs first, then the unique index. */
  function Insert(db: Db, id: string, r: Request): Result<Db, EnqueueError>
    requires id !in db.jobs
  {
    if !InputsHold(db.rows, r.scope, r.inputs) then Err(BadInput)
    else if exists k :: k in db.jobs && Holder(db.jobs[k], DedupOf(r)) then Err(SlotTaken)
    else Ok(db.(jobs := db.jobs[id := NewJob(id, r, db.now)]))
  }

  /** The live job with this key and scope, if any. */
  ghost function FindLive(db: Db, scope: string, key: DedupKey): (r: Option<Job>)
    ensures r.Some? ==>
      exists k :: k in db.jobs && db.jobs[k] == r.value && Holder(r.value, key) && r.value.scope == scope
    ensures r.None? ==> forall k :: k in db.jobs ==> !(Holder(db.jobs[k], key) && db.jobs[k].scope == scope)
  {
    if exists k :: k in db.jobs && Holder(db.jobs[k], key) && db.jobs[k].scope == scope then
      var k :| k in db.jobs && Holder(db.jobs[k], key) && db.jobs[k].scope == scope;
      Some(db.jobs[k])
    else None
  }

  ghost function Enqueue(db: Db, id: string, r: Request): (Enqueued, Db)
    requires id !in db.jobs
  {
    if !ValidRequest(r) then (Rejected(InvalidShape), db)
    else
      match Insert(db, id, r)
      case Ok(db') => (Created(db'.jobs[id]), db')
      case Err(SlotTaken) =>
        var live := FindLive(db, r.scope, DedupOf(r));
        (if live.Some? then Deduplicated(live.value) else Rejected(SlotTaken), db)
      case Err(e) => (Rejected(e), db)
  }

  // ---- Reads ------------------------------------------------------------------------------

  predicate Due(j: Job, now: nat) {
    || (j.state.Pending? && (j.notBefore.None? || j.notBefore.value <= now))
    || (j.state.Leased? && (j.leaseUntil.None? || j.leaseUntil.value <= now))
  }

  const SCAN_LIMIT := 8

  /** Whether the scan may return this job to this worker. */
  predicate Candidate(j: Job, now: nat, scopes: seq<string>, kinds: seq<string>) {
    j.scope in scopes && j.kind in kinds && Due(j, now)
  }

  /** The oldest candidates, at most `SCAN_LIMIT` of them. */
  ghost predicate IsScan(db: Db, scopes: seq<string>, kinds: seq<string>, found: seq<Job>) {
    && |found| <= SCAN_LIMIT
    && (forall i :: 0 <= i < |found| ==>
          found[i].id in db.jobs && db.jobs[found[i].id] == found[i] && Candidate(found[i], db.now, scopes, kinds))
    && (forall i, j :: 0 <= i < j < |found| ==>
          found[i].id != found[j].id && found[i].createdAt <= found[j].createdAt)
    && (forall k :: k in db.jobs && Candidate(db.jobs[k], db.now, scopes, kinds) && db.jobs[k] !in found ==>
          |found| == SCAN_LIMIT && forall i :: 0 <= i < |found| ==> found[i].createdAt <= db.jobs[k].createdAt)
  }

  /** What the claim loop decides about one scanned row. */
  datatype Choice = Expire | Skip | Take(until: nat)

  function Choose(j: Job, now: nat): Choice {
    if j.state.Pending? && j.expiresAt.Some? && j.expiresAt.value <= now then Expire
    else if j.attempts >= j.budget.maxAttempts then Skip
    else Take(NowPlus(now, j.budget.leaseMs))
  }

  /** How a failure is recorded, decided from the record that was read. */
  datatype FailPlan = FailPlan(retry: bool, notBefore: Option<nat>, reason: Option<string>)

  function PlanFailure(j: Job, now: nat, e: JobError): FailPlan {
    var late := j.expiresAt.Some? && j.expiresAt.value <= now;
    if e.retryable && j.attempts < j.budget.maxAttempts && !late then
      FailPlan(true, Some(NowPlus(now, Backoff(j.budget, j.attempts))), None)
    else
      FailPlan(false, None, Some(
        if late then "deadline exceeded"
        else if j.attempts >= j.budget.maxAttempts then "attempt budget exhausted"
        else "non-retryable failure"))
  }

  // ---- Operations in flight ------------------------------------------------------------------

  datatype Flight =
    | Scanned(worker: string, todo: seq<Job>)
    | Taking(worker: string, job: Job, until: nat, readAt: nat, todo: seq<Job>)
    | Expiring(worker: string, job: Job, todo: seq<Job>)
    | Renewing(job: Job, fence: nat, worker: string, until: nat)
    | Checkpointing(job: Job, fence: nat, worker: string, body: string)
    | Completing(job: Job, fence: nat, worker: string, result: string, readAt: nat)
    | Failing(job: Job, fence: nat, worker: string, error: JobError, plan: FailPlan, readAt: nat)
    | Cancelling(job: Job, reason: string, readAt: nat)
    | Superseding(job: Job, replacement: string, reason: string, readAt: nat)

  /** The effects a worker commits under its fence. */
  predicate IsEffect(f: Flight) { f.Renewing? || f.Checkpointing? || f.Completing? || f.Failing? }

  predicate Holds(j: Job, fence: nat, worker: string) {
    j.state.Leased? && j.fence == fence && j.owner == Some(worker)
  }

  function Bury(j: Job, state: JobState, reason: string, now: nat): Job {
    j.(state := state, reason := Some(reason), slot := Tombstone(j.id), completedAt := Some(now))
  }

  function Claimed(j: Job, snap: Job, worker: string, until: nat, readAt: nat): Job {
    j.(state := Leased, fence := j.fence + 1, owner := Some(worker), leaseUntil := Some(until), notBefore := None,
       attempts := j.attempts + 1,
       history := j.history + [Attempt(snap.attempts + 1, worker, snap.fence + 1, readAt, None, None)])
  }

  function Completed(j: Job, snap: Job, result: string, readAt: nat, now: nat): Job {
    j.(state := Succeeded, result := Some(result), completedAt := Some(now), slot := Tombstone(j.id),
       history := CloseHistory(snap.history, readAt, None))
  }

  function Failure(j: Job, snap: Job, e: JobError, plan: FailPlan, readAt: nat): Job {
    j.(state := if plan.retry then Pending else JobState.Failed, error := Some(e), notBefore := plan.notBefore,
       leaseUntil := None, owner := None, slot := if plan.retry then Live(snap.dedup) else Tombstone(snap.id),
       reason := plan.reason, completedAt := if plan.retry then None else Some(readAt),
       history := CloseHistory(snap.history, readAt, Some(e.message)))
  }

  function Withdrawn(j: Job, snap: Job, state: JobState, reason: string, readAt: nat, now: nat): Job {
    Bury(j, state, reason, now).(leaseUntil := None, owner := None, history := CloseHistory(snap.history, readAt, None))
  }

  /** The job a flight updates. */
  function TargetOf(f: Flight): Option<string> { if f.Scanned? then None else Some(f.job.id) }

  /** The guarded update of one flight on the current record `j`; `None` when the guard fails. */
  function Updated(db: Db, j: Job, f: Flight): Option<Job> {
    match f
    case Scanned(_, _) => None
    case Taking(worker, snap, until, readAt, _) =>
      if Due(j, db.now) && j.fence == snap.fence then Some(Claimed(j, snap, worker, until, readAt)) else None
    case Expiring(_, snap, _) =>
      if j.state.Pending? && j.fence == snap.fence then Some(Bury(j, JobState.Failed, "deadline exceeded", db.now))
      else None
    case Renewing(_, fence, worker, until) =>
      if Holds(j, fence, worker) then Some(j.(leaseUntil := Some(until))) else None
    case Checkpointing(_, fence, worker, body) =>
      if Holds(j, fence, worker) then Some(j.(checkpoint := Some(body))) else None
    case Completing(snap, fence, worker, result, readAt) =>
      if InputsHold(db.rows, snap.scope, snap.inputs) && Holds(j, fence, worker) then
        Some(Completed(j, snap, result, readAt, db.now))
      else None
    case Failing(snap, fence, worker, e, plan, readAt) =>
      if Holds(j, fence, worker) then Some(Failure(j, snap, e, plan, readAt)) else None
    case Cancelling(snap, reason, readAt) =>
      if !Terminal(j.state) && j.scope == snap.scope then
        Some(Withdrawn(j, snap, Cancelled, reason, readAt, db.now))
      else None
    case Superseding(snap, replacement, reason, readAt) =>
      if !Terminal(j.state) && j.scope == snap.scope then
        Some(Withdrawn(j, snap, Superseded, reason, readAt, db.now).(replacedBy := Some(replacement)))
      else None
  }

  function CommitJobs(db: Db, f: Flight): map<string, Job> {
    var id := TargetOf(f);
    if id.Some? && id.value in db.jobs && Updated(db, db.jobs[id.value], f).Some? then
      db.jobs[id.value := Updated(db, db.jobs[id.value], f).value]
    else db.jobs
  }

  datatype Reply = Record(job: Job) | Lease(job: Job, fence: nat, until: nat) | NoLease | LeaseLost | StaleInput

  /** What the caller of a finished operation is told. */
  function ReplyOf(db: Db, f: Flight): Reply
    requires TargetOf(f).Some? && TargetOf(f).value in db.jobs
  {
    var j := db.jobs[TargetOf(f).value];
    var done := Updated(db, j, f);
    match f
    case Completing(snap, _, _, _, _) =>
      if !InputsHold(db.rows, snap.scope, snap.inputs) then StaleInput
      else if done.Some? then Record(done.value) else LeaseLost
    case Taking(_, _, until, _, _) => if done.Some? then Lease(done.value, done.value.fence, until) else NoLease
    case Renewing(_, fence, _, until) => if done.Some? then Lease(done.value, fence, until) else LeaseLost
    case Cancelling(_, _, _) => Record(if done.Some? then done.value else j)
    case Superseding(_, _, _, _) => Record(if done.Some? then done.value else j)
    case _ => if done.Some? then Record(done.value) else LeaseLost
  }

  // ---- Writes that carry job intents --------------------------------------------------------

  /** Decided before the transaction: deduplicated against a live job, or to insert. */
  datatype IntentSlot = Dedup(job: Job) | ToInsert(id: string, request: Request)

  /** A put, or the closing of `prior` at its expected version plus its successor. */
  datatype Write = Write(scope: string, key: string, prior: Option<(string, nat)>, slots: seq<IntentSlot>)

  /** The requests to insert are valid ones of the write's scope. */
  predicate SlotsValid(w: Write) {
    forall i :: 0 <= i < |w.slots| && w.slots[i].ToInsert? ==>
      ValidRequest(w.slots[i].request) && w.slots[i].request.scope == w.scope
  }

  /** One intent, against the live jobs; `id` is the id its job would get. */
  ghost function SlotFor(db: Db, scope: string, key: string, it: Intent, id: string): IntentSlot {
    var r := Resolve(it, scope, Some(key));
    var live := FindLive(db, scope, DedupOf(r));
    if live.Some? then IntentSlot.Dedup(live.value) else ToInsert(id, r)
  }

  ghost function SlotsFor(db: Db, scope: string, key: string, intents: seq<Intent>, ids: seq<string>)
    : (r: seq<IntentSlot>)
    requires |ids| == |intents|
    ensures |r| == |intents| && forall i :: 0 <= i < |r| ==> r[i] == SlotFor(db, scope, key, intents[i], ids[i])
  {
    seq(|intents|, i requires 0 <= i < |intents| => SlotFor(db, scope, key, intents[i], ids[i]))
  }

  function PriorCloses(rows: Rows, scope: string, prior: Option<(string, nat)>): bool {
    prior.Some? ==>
      var key := (Memory, prior.value.0);
      key in rows && rows[key].scope == scope && rows[key].open && rows[key].version == prior.value.1
  }

  function WrittenRows(rows: Rows, w: Write): Rows {
    var closed :=
      if w.prior.Some? && (Memory, w.prior.value.0) in rows then
        rows[(Memory, w.prior.value.0) :=
          rows[(Memory, w.prior.value.0)].(version := w.prior.value.1 + 1, open := false)]
      else rows;
    closed[(Memory, w.key) := Row(w.scope, 1, true)]
  }

  function InsertAll(db: Db, slots: seq<IntentSlot>): Option<Db>
    decreases |slots|
  {
    if slots == [] then Some(db)
    else
      match slots[0]
      case Dedup(_) => InsertAll(db, slots[1..])
      case ToInsert(id, r) =>
        if id in db.jobs then None
        else
          match Insert(db, id, r)
          case Err(_) => None
          case Ok(db') => InsertAll(db', slots[1..])
  }

  /** The whole transaction: the memory rows and every insert, or nothing. */
  function CommitWrite(db: Db, w: Write): Option<Db> {
    if !PriorCloses(db.rows, w.scope, w.prior) || (Memory, w.key) in db.rows then None
    else InsertAll(db.(rows := WrittenRows(db.rows, w)), w.slots)
  }
}
