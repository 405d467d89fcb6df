/**
 What the journal promises its workers and operators: fencing, revision-bound
 completion and deduplication. Where the code does less than its documentation, the
 exact condition is stated.
 */
module JournalLeases {
  import opened Wrappers
  import opened Dedup
  import opened Jobs
  import opened Journal
  import opened JournalSafety

  // ---- Fencing --------------------------------------------------------------------

  /** The one job a step may update, and how. */
  ghost predicate Touches(w: World, a: Action, k: string) {
    && a.Commit?
    && a.call in w.flights
    && TargetOf(w.flights[a.call]) == Some(k)
    && k in w.db.jobs
    && Updated(w.db, w.db.jobs[k], w.flights[a.call]).Some?
  }

  /** The record of job `k` after a step. */
  ghost function JobAfter(w: World, a: Action, k: string): Job
    requires Inv(w) && Enabled(w, a) && k in w.db.jobs
  {
    StepKeepsInv(w, a);
    Step(w, a).db.jobs[k]
  }

  /** Only a commit whose guard held on that very job changes an existing record. */
  lemma OnlyGuardedCommitsTouch(w: World, a: Action, k: string)
    requires Inv(w) && Enabled(w, a) && k in w.db.jobs
    ensures JobAfter(w, a, k) ==
      (if Touches(w, a, k) then Updated(w.db, w.db.jobs[k], w.flights[a.call]).value else w.db.jobs[k])
  {
    match a
    case Accept(id, r) => EnqueueOnlyAdds(w.db, id, r);
    case CommitIntents(write) => WriteOnlyAdds(w.db, write);
    case _ =>
  }

  lemma EnqueueOnlyAdds(db: Db, id: string, r: Request)
    requires id !in db.jobs
    ensures forall k :: k in db.jobs ==> k in Enqueue(db, id, r).1.jobs && Enqueue(db, id, r).1.jobs[k] == db.jobs[k]
  {
  }

  lemma WriteOnlyAdds(db: Db, w: Write)
    ensures CommitWrite(db, w).Some? ==>
      forall k :: k in db.jobs ==> k in CommitWrite(db, w).value.jobs && CommitWrite(db, w).value.jobs[k] == db.jobs[k]
  {
    if CommitWrite(db, w).Some? {
      InsertAllOnlyAdds(db.(rows := WrittenRows(db.rows, w)), w.slots);
    }
  }

  lemma {:induction false} InsertAllOnlyAdds(db: Db, slots: seq<IntentSlot>)
    requires InsertAll(db, slots).Some?
    ensures forall k :: k in db.jobs ==>
      k in InsertAll(db, slots).value.jobs && InsertAll(db, slots).value.jobs[k] == db.jobs[k]
    decreases |slots|
  {
    if slots != [] {
      match slots[0]
      case Dedup(_) => InsertAllOnlyAdds(db, slots[1..]);
      case ToInsert(id, r) => InsertAllOnlyAdds(Insert(db, id, r).value, slots[1..]);
    }
  }

  /**
   A fence moves only when a claim commits, by exactly one, and the claim leaves the
   job leased to that claimant with one more attempt.
   */
  lemma FenceMovesOnlyAtClaims(w: World, a: Action, k: string)
    requires Inv(w) && Enabled(w, a) && k in w.db.jobs
    ensures var j, j' := w.db.jobs[k], JobAfter(w, a, k);
      j'.fence != j.fence <==> Touches(w, a, k) && w.flights[a.call].Taking?
    ensures var j, j' := w.db.jobs[k], JobAfter(w, a, k);
      j'.fence != j.fence ==>
        && j'.fence == j.fence + 1 && j'.attempts == j.attempts + 1
        && Holds(j', j'.fence, w.flights[a.call].worker)
        && Due(j, w.db.now)
  {
    OnlyGuardedCommitsTouch(w, a, k);
    if Touches(w, a, k) {
      FenceMovesInClaimUpdates(w.db, w.db.jobs[k], w.flights[a.call]);
    }
  }

  lemma FenceMovesInClaimUpdates(db: Db, j: Job, f: Flight)
    requires Updated(db, j, f).Some?
    ensures var j' := Updated(db, j, f).value;
      && (j'.fence != j.fence <==> f.Taking?)
      && (f.Taking? ==>
            && j'.fence == j.fence + 1 && j'.attempts == j.attempts + 1
            && Holds(j', j'.fence, f.worker)
            && Due(j, db.now))
  {
  }

  /** A worker's effect lands exactly when it holds the current lease (and, to complete, fresh inputs). */
  lemma EffectLandsIffLeaseHeld(w: World, call: nat)
    requires Inv(w) && call in w.flights && IsEffect(w.flights[call])
    ensures var f := w.flights[call];
      && f.job.id in w.db.jobs
      && var j := w.db.jobs[f.job.id];
         Touches(w, Commit(call), f.job.id) <==>
           Holds(j, f.fence, f.worker) && (f.Completing? ==> InputsHold(w.db.rows, j.scope, j.inputs))
  {
    var f := w.flights[call];
    assert f.job in Snapshots(f);
  }

  /**
   Once a later claim has raised the fence, nothing carrying an earlier fence ever
   changes a record again, in any continuation of the run.
   */
  lemma LostLeaseCommitsNothing(w: World, run: seq<Action>, id: string, call: nat)
    requires Inv(w) && Legal(w, run) && id in w.db.jobs
    requires var w' := Exec(w, run);
      && call in w'.flights && IsEffect(w'.flights[call]) && w'.flights[call].job.id == id
      && w'.flights[call].fence < w.db.jobs[id].fence
    ensures var w' := Exec(w, run);
      && Step(w', Commit(call)).db == w'.db
      && id in w'.db.jobs
      && ReplyOf(w'.db, w'.flights[call]) in {LeaseLost, StaleInput}
  {
    RunKeepsInv(w, run);
    var w' := Exec(w, run);
    StaleEffectIsRejected(w', call);
  }

  lemma StaleEffectIsRejected(w: World, call: nat)
    requires call in w.flights && IsEffect(w.flights[call])
    requires var f := w.flights[call]; f.job.id in w.db.jobs && f.fence < w.db.jobs[f.job.id].fence
    ensures Step(w, Commit(call)).db == w.db
    ensures ReplyOf(w.db, w.flights[call]) in {LeaseLost, StaleInput}
  {
  }

  /** Cancelling or superseding a job also revokes its lease: no effect lands after. */
  lemma EndedJobAcceptsNothing(w: World, run: seq<Action>, id: string, call: nat)
    requires Inv(w) && Legal(w, run) && id in w.db.jobs && Terminal(w.db.jobs[id].state)
    requires call in Exec(w, run).flights && TargetOf(Exec(w, run).flights[call]) == Some(id)
    ensures Step(Exec(w, run), Commit(call)).db == Exec(w, run).db
    ensures id in Exec(w, run).db.jobs && Exec(w, run).db.jobs[id] == w.db.jobs[id]
  {
    RunKeepsInv(w, run);
    TerminalIsUntouched(Exec(w, run), call, id);
  }

  lemma TerminalIsUntouched(w: World, call: nat, id: string)
    requires call in w.flights && TargetOf(w.flights[call]) == Some(id)
    requires id in w.db.jobs && Terminal(w.db.jobs[id].state)
    ensures Step(w, Commit(call)).db == w.db
  {
  }

  // ---- Revision-bound completion -------------------------------------------------------

  /** A job enters Succeeded only in a state where all its inputs exist at their pins. */
  lemma SucceedsOnlyOnFreshInputs(w: World, a: Action, k: string)
    requires Inv(w) && Enabled(w, a) && k in w.db.jobs
    requires !w.db.jobs[k].state.Succeeded? && JobAfter(w, a, k).state.Succeeded?
    ensures w.db.jobs[k].state.Leased? && InputsHold(w.db.rows, w.db.jobs[k].scope, w.db.jobs[k].inputs)
    ensures a.Commit? && w.flights[a.call].Completing?
    ensures Holds(w.db.jobs[k], w.flights[a.call].fence, w.flights[a.call].worker)
    ensures Step(w, a).db.rows == w.db.rows
  {
    OnlyGuardedCommitsTouch(w, a, k);
    EffectLandsOnRecord(w, a, k);
    SuccessNeedsFreshInputs(w.db, w.db.jobs[k], w.flights[a.call]);
  }

  lemma SuccessNeedsFreshInputs(db: Db, j: Job, f: Flight)
    requires Updated(db, j, f).Some? && Updated(db, j, f).value.state.Succeeded? && !j.state.Succeeded?
    requires Follows(f.job, j)
    ensures f.Completing? && InputsHold(db.rows, j.scope, j.inputs) && Holds(j, f.fence, f.worker)
  {
  }

  lemma EffectLandsOnRecord(w: World, a: Action, k: string)
    requires Inv(w) && Touches(w, a, k)
    ensures var f := w.flights[a.call]; f.job in Snapshots(f) && Follows(f.job, w.db.jobs[k])
  {
    var f := w.flights[a.call];
    assert f.job in Snapshots(f);
  }

  /** A completion whose inputs moved is told so and changes nothing: the job stays leased. */
  lemma StaleCompletionLeavesLease(w: World, call: nat)
    requires Inv(w) && call in w.flights && w.flights[call].Completing?
    requires var f := w.flights[call];
      f.job.id in w.db.jobs && !InputsHold(w.db.rows, w.db.jobs[f.job.id].scope, w.db.jobs[f.job.id].inputs)
    ensures Step(w, Commit(call)).db == w.db
    ensures ReplyOf(w.db, w.flights[call]) == StaleInput
  {
    var f := w.flights[call];
    assert f.job in Snapshots(f);
  }

  // ---- Deduplication ------------------------------------------------------------------------------

  /** In a sound journal the live holder of a key is unique, so the lookup is a function of the state. */
  lemma FindLiveIsTheHolder(db: Db, j: Job)
    requires JobsSound(db.jobs) && LiveUnique(db.jobs) && Current(db, j) && !Terminal(j.state)
    ensures FindLive(db, j.scope, j.dedup) == Some(j)
  {
    assert Holder(j, j.dedup) && j.id in db.jobs;
    var found := FindLive(db, j.scope, j.dedup).value;
    var k :| k in db.jobs && db.jobs[k] == found && Holder(found, j.dedup);
    assert k == j.id;
  }

  /**
   Enqueueing a live intent again returns that very job and changes nothing if and
   only if its inputs still hold; otherwise it is refused although the job is live.
   */
  lemma ReenqueueIff(db: Db, id: string, r: Request, j: Job)
    requires JobsSound(db.jobs) && LiveUnique(db.jobs) && id !in db.jobs && ValidRequest(r)
    requires Current(db, j) && !Terminal(j.state) && j.dedup == DedupOf(r)
    ensures Enqueue(db, id, r).1 == db
    ensures Enqueue(db, id, r).0 == Deduplicated(j) <==> InputsHold(db.rows, r.scope, r.inputs)
    ensures !InputsHold(db.rows, r.scope, r.inputs) ==> Enqueue(db, id, r).0 == Rejected(BadInput)
  {
    KeyScopeOfRequest(r);
    FindLiveIsTheHolder(db, j);
    assert Holder(db.jobs[j.id], DedupOf(r));
  }

  /** Without a live holder, a valid request with good inputs becomes a new pending job. */
  lemma FreshIntentIsCreated(db: Db, id: string, r: Request)
    requires JobsSound(db.jobs) && id !in db.jobs && ValidRequest(r) && InputsHold(db.rows, r.scope, r.inputs)
    requires forall k :: k in db.jobs && db.jobs[k].dedup == DedupOf(r) ==> Terminal(db.jobs[k].state)
    ensures Enqueue(db, id, r) == (Created(NewJob(id, r, db.now)), db.(jobs := db.jobs[id := NewJob(id, r, db.now)]))
  {
    forall k | k in db.jobs ensures !Holder(db.jobs[k], DedupOf(r)) {
      assert JobSound(db.jobs[k]);
    }
  }

  /** `origin` gives the request each live job was made from. */
  ghost predicate Origins(db: Db, origin: map<string, Request>) {
    forall k :: k in db.jobs && !Terminal(db.jobs[k].state) ==>
      k in origin && ValidRequest(origin[k]) && db.jobs[k].dedup == DedupOf(origin[k])
  }

  ghost predicate LiveTwin(db: Db, origin: map<string, Request>, r: Request, k: string) {
    k in db.jobs && !Terminal(db.jobs[k].state) && k in origin && SameIntent(origin[k], r)
  }

  /**
   While kinds and input ids are plain, an enqueue makes a new job exactly when no
   live job was made from the same intent, and otherwise returns that job.
   */
  lemma EnqueueTellsIntentsApartIff(db: Db, id: string, r: Request, origin: map<string, Request>)
    requires JobsSound(db.jobs) && LiveUnique(db.jobs) && id !in db.jobs && Origins(db, origin)
    requires ValidRequest(r) && InputsHold(db.rows, r.scope, r.inputs) && PlainIntent(r)
    requires forall k :: k in origin ==> PlainIntent(origin[k])
    ensures Enqueue(db, id, r).0.Created? <==> forall k :: !LiveTwin(db, origin, r, k)
    ensures forall k :: LiveTwin(db, origin, r, k) ==> Enqueue(db, id, r) == (Deduplicated(db.jobs[k]), db)
  {
    forall k | k in db.jobs && !Terminal(db.jobs[k].state)
      ensures db.jobs[k].dedup == DedupOf(r) <==> LiveTwin(db, origin, r, k)
    {
      SameDedupIff(origin[k], r);
    }
    forall k | LiveTwin(db, origin, r, k) ensures Enqueue(db, id, r) == (Deduplicated(db.jobs[k]), db) {
      ReenqueueIff(db, id, r, db.jobs[k]);
    }
    if forall k :: !LiveTwin(db, origin, r, k) {
      FreshIntentIsCreated(db, id, r);
    }
  }

  /**
   With a line break in a kind they are not told apart: an intent without inputs is
   answered with the live job of another that has some.
   */
  lemma OtherIntentIsDeduplicated(db: Db, id: string, a: Request, composition: string, hint: string, j: Job)
    requires JobsSound(db.jobs) && LiveUnique(db.jobs) && id !in db.jobs
    requires ValidRequest(a) && a.inputs != [] && a.hint == "\n" + (composition + ("\n" + hint))
    requires Current(db, j) && !Terminal(j.state) && j.dedup == DedupOf(a)
    ensures var b := a.(kind := a.kind + ("\n" + (PinsText(Pins(a.inputs)) + ("\n" + a.composition))), inputs := [],
                        composition := composition, hint := hint);
      !SameIntent(a, b) && (ValidRequest(b) ==> Enqueue(db, id, b) == (Deduplicated(j), db))
  {
    var b := a.(kind := a.kind + ("\n" + (PinsText(Pins(a.inputs)) + ("\n" + a.composition))), inputs := [],
                composition := composition, hint := hint);
    KindWithLineBreakCollides(a.scope, a.kind, a.inputs, a.composition, composition, hint);
    if ValidRequest(b) {
      ReenqueueIff(db, id, b, j);
    }
  }

  /** Row keys as the store generates them hold neither line break nor comma. */
  predicate PlainKeys(rows: Rows) { forall key :: key in rows ==> '\n' !in key.1 && ',' !in key.1 }

  /**
   Ids with a line break or a comma make one text of different intents, but not one
   job: over generated row keys no row has such an id, so the request is refused as a
   bad input before its identity is looked at. Only the kind can confuse an enqueue.
   */
  lemma OddIdsAreBadInputs(db: Db, id: string, r: Request)
    requires PlainKeys(db.rows) && id !in db.jobs && ValidRequest(r) && !PlainIds(r.inputs)
    ensures Enqueue(db, id, r) == (Rejected(BadInput), db)
  {
    var i :| i in r.inputs && ('\n' in i.id || ',' in i.id);
    assert !InputHolds(db.rows, r.scope, i);
  }

  // ---- The replay after a refused insert ----------------------------------------------------------

  /** The second query of an enqueue whose insert met a taken slot. */
  ghost function Replay(db: Db, r: Request): Enqueued {
    var live := FindLive(db, r.scope, DedupOf(r));
    if live.Some? then Deduplicated(live.value) else Rejected(SlotTaken)
  }

  /**
   The replay is a query of its own, made after any number of other steps: it returns
   the very job that took the slot exactly while that job is live, and otherwise a
   later live job of the same intent, or the refusal.
   */
  lemma ReplayReturnsTheHolderIff(w: World, run: seq<Action>, r: Request, j: Job)
    requires Inv(w) && Legal(w, run) && ValidRequest(r)
    requires Current(w.db, j) && !Terminal(j.state) && j.dedup == DedupOf(r)
    ensures var db' := Exec(w, run).db;
      && j.id in db'.jobs
      && (Replay(db', r) == Deduplicated(db'.jobs[j.id]) <==> !Terminal(db'.jobs[j.id].state))
      && (Replay(db', r).Deduplicated? ==>
            var k := Replay(db', r).job;
            Current(db', k) && !Terminal(k.state) && k.dedup == DedupOf(r) && k.scope == r.scope)
  {
    RunKeepsInv(w, run);
    KeyScopeOfRequest(r);
    var db' := Exec(w, run).db;
    if !Terminal(db'.jobs[j.id].state) {
      FindLiveIsTheHolder(db', db'.jobs[j.id]);
    }
  }
}
