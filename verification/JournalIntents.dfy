/**
 Writes that carry job intents (`put_with_jobs`, `supersede_with_jobs`): a memory
 write and the inserts it declares commit together or not at all.
 */
module JournalIntents {
  import opened Wrappers
  import opened Dedup
  import opened Jobs
  import opened Journal
  import opened JournalSafety

  // ---- Writes with intents ------------------------------------------------------------------------------

  /** What the inserts of one write need, all at once. */
  ghost predicate Insertable(db: Db, slots: seq<IntentSlot>) {
    && (forall i :: 0 <= i < |slots| && slots[i].ToInsert? ==> SlotFree(db, slots[i].id, slots[i].request))
    && (forall i, j :: 0 <= i < j < |slots| && slots[i].ToInsert? && slots[j].ToInsert? ==>
          slots[i].id != slots[j].id && DedupOf(slots[i].request) != DedupOf(slots[j].request))
  }

  /** What one insert needs. */
  ghost predicate SlotFree(db: Db, id: string, r: Request) {
    id !in db.jobs && InputsHold(db.rows, r.scope, r.inputs) && NotHeld(db, DedupOf(r))
  }

  ghost predicate NotHeld(db: Db, key: DedupKey) { forall k :: k in db.jobs ==> !Holder(db.jobs[k], key) }

  /** After the inserts: each declared job is there, pending; the rest is as before. */
  ghost predicate Inserted(db: Db, slots: seq<IntentSlot>, db': Db) {
    && db'.rows == db.rows && db'.now == db.now
    && (forall k :: k in db.jobs ==> k in db'.jobs && db'.jobs[k] == db.jobs[k])
    && (forall i :: 0 <= i < |slots| && slots[i].ToInsert? ==>
          slots[i].id in db'.jobs && db'.jobs[slots[i].id] == NewJob(slots[i].id, slots[i].request, db.now))
    && (forall k :: k in db'.jobs && k !in db.jobs ==> Declares(slots, k))
  }

  /** One of the slots to insert has this id. */
  ghost predicate Declares(slots: seq<IntentSlot>, k: string) {
    exists i :: 0 <= i < |slots| && slots[i].ToInsert? && slots[i].id == k
  }

  lemma {:induction false} InsertAllIff(db: Db, slots: seq<IntentSlot>)
    ensures InsertAll(db, slots).Some? <==> Insertable(db, slots)
    ensures InsertAll(db, slots).Some? ==> Inserted(db, slots, InsertAll(db, slots).value)
    decreases |slots|
  {
    if slots != [] {
      var rest := slots[1..];
      match slots[0]
      case Dedup(_) =>
        InsertAllIff(db, rest);
        InsertableTail(db, slots);
        if InsertAll(db, slots).Some? {
          InsertedCons(db, slots, db, InsertAll(db, rest).value);
        }
      case ToInsert(id, r) =>
        if id !in db.jobs && Insert(db, id, r).Ok? {
          var db1 := Insert(db, id, r).value;
          InsertAllIff(db1, rest);
          InsertableStep(db, slots, db1);
          if InsertAll(db, slots).Some? {
            InsertedCons(db, slots, db1, InsertAll(db1, rest).value);
          }
        } else {
          InsertFailsNotInsertable(db, slots);
        }
    }
  }

  lemma InsertableTail(db: Db, slots: seq<IntentSlot>)
    requires slots != [] && slots[0].Dedup?
    ensures Insertable(db, slots) <==> Insertable(db, slots[1..])
  {
    var rest := slots[1..];
    assert forall i :: 0 < i < |slots| ==> slots[i] == rest[i - 1];
    assert forall i :: 0 <= i < |rest| ==> rest[i] == slots[i + 1];
  }

  lemma InsertFailsNotInsertable(db: Db, slots: seq<IntentSlot>)
    requires slots != [] && slots[0].ToInsert?
    requires slots[0].id in db.jobs || Insert(db, slots[0].id, slots[0].request).Err?
    ensures !Insertable(db, slots)
  {
  }

  /** The head is in; the rest must then do without its id and its key. */
  lemma InsertableStep(db: Db, slots: seq<IntentSlot>, db1: Db)
    requires slots != [] && slots[0].ToInsert? && slots[0].id !in db.jobs
    requires Insert(db, slots[0].id, slots[0].request) == Ok(db1)
    ensures Insertable(db, slots) <==> Insertable(db1, slots[1..])
  {
    var rest := slots[1..];
    assert forall i :: 0 < i < |slots| ==> slots[i] == rest[i - 1];
    assert forall i :: 0 <= i < |rest| ==> rest[i] == slots[i + 1];
    forall i | 0 <= i < |rest| && rest[i].ToInsert?
      ensures SlotFree(db1, rest[i].id, rest[i].request) <==>
        && SlotFree(db, rest[i].id, rest[i].request)
        && slots[0].id != rest[i].id && DedupOf(slots[0].request) != DedupOf(rest[i].request)
    {
      FreeAfterInsert(db, slots[0].id, slots[0].request, db1, rest[i].id, rest[i].request);
    }
  }

  lemma FreeAfterInsert(db: Db, id: string, r: Request, db1: Db, id': string, r': Request)
    requires id !in db.jobs && Insert(db, id, r) == Ok(db1)
    ensures SlotFree(db1, id', r') <==> SlotFree(db, id', r') && id != id' && DedupOf(r) != DedupOf(r')
  {
    assert db1.jobs[id] == NewJob(id, r, db.now);
    if NotHeld(db1, DedupOf(r')) {
      assert forall k :: k in db.jobs && k != id ==> db1.jobs[k] == db.jobs[k];
    }
  }

  lemma InsertedCons(db: Db, slots: seq<IntentSlot>, db1: Db, db': Db)
    requires slots != [] && Inserted(db1, slots[1..], db')
    requires slots[0].Dedup? ==> db1 == db
    requires slots[0].ToInsert? ==> slots[0].id !in db.jobs && Insert(db, slots[0].id, slots[0].request) == Ok(db1)
    ensures Inserted(db, slots, db')
  {
    assert forall i :: 0 < i < |slots| ==> slots[i] == slots[1..][i - 1];
    forall k | k in db'.jobs && k !in db.jobs ensures Declares(slots, k) {
      DeclaresCons(slots, k);
    }
  }

  lemma DeclaresCons(slots: seq<IntentSlot>, k: string)
    requires slots != []
    ensures Declares(slots, k) <==> (slots[0].ToInsert? && slots[0].id == k) || Declares(slots[1..], k)
  {
    if Declares(slots[1..], k) {
      var i :| 0 <= i < |slots[1..]| && slots[1..][i].ToInsert? && slots[1..][i].id == k;
      assert slots[i + 1] == slots[1..][i];
    }
    if Declares(slots, k) {
      var i :| 0 <= i < |slots| && slots[i].ToInsert? && slots[i].id == k;
      assert i > 0 ==> slots[1..][i - 1] == slots[i];
    }
  }

  /**
   A write and its intents commit together or not at all, and exactly when: the
   prior is still open at the expected version, the new key is free, and every
   intent to insert has good inputs after the write, a free key, and no twin in
   the same write.
   */
  lemma WriteCommitsIff(db: Db, w: Write)
    ensures CommitWrite(db, w).Some? <==>
      && PriorCloses(db.rows, w.scope, w.prior)
      && (Memory, w.key) !in db.rows
      && Insertable(db.(rows := WrittenRows(db.rows, w)), w.slots)
    ensures CommitWrite(db, w).Some? ==>
      Inserted(db.(rows := WrittenRows(db.rows, w)), w.slots, CommitWrite(db, w).value)
  {
    InsertAllIff(db.(rows := WrittenRows(db.rows, w)), w.slots);
  }

  /** Two intents with one identity, neither live yet, always sink their own write. */
  lemma TwinIntentsSinkTheWrite(db: Db, w: Write, i: nat, j: nat)
    requires i < j < |w.slots| && w.slots[i].ToInsert? && w.slots[j].ToInsert?
    requires DedupOf(w.slots[i].request) == DedupOf(w.slots[j].request)
    ensures CommitWrite(db, w).None?
  {
    WriteCommitsIff(db, w);
  }

  /** The pin on the record being written resolves inside the same commit. */
  lemma SelfInputResolves(rows: Rows, w: Write, it: Intent)
    ensures InputsHold(WrittenRows(rows, w), w.scope, Resolve(it, w.scope, Some(w.key)).inputs)
      <==> InputsHold(WrittenRows(rows, w), w.scope, it.inputs)
  {
    var rows', self := WrittenRows(rows, w), Input(Memory, w.key, Some(1));
    assert InputHolds(rows', w.scope, self);
    var resolved := Resolve(it, w.scope, Some(w.key)).inputs;
    assert forall i :: i in it.inputs ==> i in resolved;
    assert forall i :: i in resolved ==> i in it.inputs || i == self;
  }

  /** Pinning the prior at the version a supersede closes is always refused by that supersede. */
  lemma PinOnClosedPriorFails(db: Db, w: Write, i: nat, pin: Input)
    requires w.prior.Some? && PriorCloses(db.rows, w.scope, w.prior) && w.key != w.prior.value.0
    requires i < |w.slots| && w.slots[i].ToInsert? && pin in w.slots[i].request.inputs
    requires pin == Input(Memory, w.prior.value.0, Some(w.prior.value.1))
    ensures CommitWrite(db, w).None?
  {
    WriteCommitsIff(db, w);
    var rows := WrittenRows(db.rows, w);
    assert rows[(Memory, w.prior.value.0)].version == w.prior.value.1 + 1;
    assert !InputHolds(rows, w.slots[i].request.scope, pin);
  }

  /**
   What a committed write leaves of the rows: its own record open at revision 1, the
   prior one closed one version on, every other row as it was.
   */
  lemma WriteLeavesRows(db: Db, w: Write)
    requires CommitWrite(db, w).Some?
    ensures var rows := CommitWrite(db, w).value.rows;
      && rows.Keys == db.rows.Keys + {(Memory, w.key)}
      && rows[(Memory, w.key)] == Row(w.scope, 1, true)
      && (w.prior.Some? ==>
            var (key, version) := w.prior.value;
            && (Memory, key) in db.rows && db.rows[(Memory, key)] == Row(w.scope, version, true)
            && rows[(Memory, key)] == Row(w.scope, version + 1, false))
      && (forall k :: k in db.rows && (w.prior.Some? ==> k != (Memory, w.prior.value.0)) ==> rows[k] == db.rows[k])
  {
    WriteCommitsIff(db, w);
  }

  /** A version is closed once: after a supersede, no other write over that prior commits on those rows. */
  lemma PriorClosesOnce(db: Db, w: Write, again: Write)
    requires CommitWrite(db, w).Some? && w.prior.Some?
    requires again.prior.Some? && again.prior.value.0 == w.prior.value.0
    ensures CommitWrite(CommitWrite(db, w).value, again).None?
  {
    WriteLeavesRows(db, w);
  }

  // ---- Intents resolved against the live jobs --------------------------------------------------

  /** A live job already stands for the intent. */
  ghost predicate IsLive(db: Db, r: Request) {
    exists k :: k in db.jobs && !Terminal(db.jobs[k].state) && db.jobs[k].dedup == DedupOf(r)
  }

  /** Live jobs are the holders of their keys. */
  lemma HolderIffLive(db: Db, r: Request)
    requires JobsSound(db.jobs)
    ensures (exists k :: k in db.jobs && Holder(db.jobs[k], DedupOf(r))) <==> IsLive(db, r)
    ensures forall k :: k in db.jobs ==>
      (Holder(db.jobs[k], DedupOf(r)) <==> !Terminal(db.jobs[k].state) && db.jobs[k].dedup == DedupOf(r))
  {
    forall k | k in db.jobs ensures Holder(db.jobs[k], DedupOf(r)) <==>
      !Terminal(db.jobs[k].state) && db.jobs[k].dedup == DedupOf(r)
    {
      assert JobSound(db.jobs[k]);
    }
  }

  lemma SlotDedupsIffLive(db: Db, scope: string, key: string, it: Intent, id: string)
    requires JobsSound(db.jobs) && LiveUnique(db.jobs) && ValidRequest(Resolve(it, scope, Some(key)))
    ensures var r := Resolve(it, scope, Some(key));
      var slot := SlotFor(db, scope, key, it, id);
      && (slot.Dedup? <==> IsLive(db, r))
      && (slot.Dedup? ==> Current(db, slot.job) && !Terminal(slot.job.state) && slot.job.dedup == DedupOf(r))
      && (slot.ToInsert? ==> slot == ToInsert(id, r))
  {
    var r := Resolve(it, scope, Some(key));
    KeyScopeOfRequest(r);
    HolderIffLive(db, r);
    var live := FindLive(db, scope, DedupOf(r));
    if live.Some? {
      var k :| k in db.jobs && db.jobs[k] == live.value && Holder(live.value, DedupOf(r)) && live.value.scope == scope;
      assert JobSound(db.jobs[k]);
    }
  }

  ghost predicate Fresh(db: Db, scope: string, key: string, it: Intent) {
    !IsLive(db, Resolve(it, scope, Some(key)))
  }

  /**
   What a write resolved at `at` and committed at `db` asks of its intents: of those
   that were not live at `at`, good inputs after the write, no live twin by now, and no
   twin among themselves; nothing is asked of those that were live.
   */
  ghost predicate IntentsFit(at: Db, db: Db, w: Write, intents: seq<Intent>) {
    var rows := WrittenRows(db.rows, w);
    && (forall i :: 0 <= i < |intents| && Fresh(at, w.scope, w.key, intents[i]) ==>
          InputsHold(rows, w.scope, intents[i].inputs) && Fresh(db, w.scope, w.key, intents[i]))
    && (forall i, j :: 0 <= i < j < |intents| ==>
          (Fresh(at, w.scope, w.key, intents[i]) && Fresh(at, w.scope, w.key, intents[j]) ==>
             DedupOf(Resolve(intents[i], w.scope, Some(w.key))) != DedupOf(Resolve(intents[j], w.scope, Some(w.key)))))
  }

  /**
   A write whose intents are resolved against the live jobs, and committed after any
   number of other steps: it commits if and only if the prior is open at the expected
   version, the key is free, and the intents that were not live have good inputs after
   the write, are still not live, and no two of them are one. An intent that was live
   never fails the write, even if its job has ended since: that job is the outcome.
   */
  lemma WriteWithIntentsCommitsIff(w0: World, run: seq<Action>, scope: string, key: string,
                                   prior: Option<(string, nat)>, intents: seq<Intent>, ids: seq<string>)
    requires Inv(w0) && Legal(w0, run) && |ids| == |intents|
    requires forall i :: 0 <= i < |intents| ==> ValidRequest(Resolve(intents[i], scope, Some(key)))
    requires forall i :: 0 <= i < |ids| ==> ids[i] !in Exec(w0, run).db.jobs
    requires forall i, j :: 0 <= i < j < |ids| ==> ids[i] != ids[j]
    ensures var w := Write(scope, key, prior, SlotsFor(w0.db, scope, key, intents, ids));
      var db := Exec(w0, run).db;
      && SlotsValid(w)
      && (CommitWrite(db, w).Some? <==>
            PriorCloses(db.rows, scope, prior) && (Memory, key) !in db.rows && IntentsFit(w0.db, db, w, intents))
      && (CommitWrite(db, w).Some? ==>
            forall i :: 0 <= i < |intents| ==>
              OutcomeOf(w0.db, db, CommitWrite(db, w).value, scope, key, intents[i], ids[i]))
  {
    RunKeepsInv(w0, run);
    ResolvedWriteCommitsIff(w0.db, Exec(w0, run).db, scope, key, prior, intents, ids);
  }

  lemma ResolvedWriteCommitsIff(at: Db, db: Db, scope: string, key: string, prior: Option<(string, nat)>,
                                intents: seq<Intent>, ids: seq<string>)
    requires JobsSound(at.jobs) && LiveUnique(at.jobs) && JobsSound(db.jobs) && |ids| == |intents|
    requires forall k :: k in at.jobs ==> k in db.jobs
    requires forall i :: 0 <= i < |intents| ==> ValidRequest(Resolve(intents[i], scope, Some(key)))
    requires forall i :: 0 <= i < |ids| ==> ids[i] !in db.jobs
    requires forall i, j :: 0 <= i < j < |ids| ==> ids[i] != ids[j]
    ensures var w := Write(scope, key, prior, SlotsFor(at, scope, key, intents, ids));
      && SlotsValid(w)
      && (CommitWrite(db, w).Some? <==>
            PriorCloses(db.rows, scope, prior) && (Memory, key) !in db.rows && IntentsFit(at, db, w, intents))
      && (CommitWrite(db, w).Some? ==>
            forall i :: 0 <= i < |intents| ==>
              OutcomeOf(at, db, CommitWrite(db, w).value, scope, key, intents[i], ids[i]))
  {
    var slots := SlotsFor(at, scope, key, intents, ids);
    var w := Write(scope, key, prior, slots);
    forall i | 0 <= i < |intents|
      ensures slots[i].Dedup? <==> !Fresh(at, scope, key, intents[i])
      ensures slots[i].ToInsert? ==> slots[i] == ToInsert(ids[i], Resolve(intents[i], scope, Some(key)))
      ensures NotHeld(db, DedupOf(Resolve(intents[i], scope, Some(key)))) <==> Fresh(db, scope, key, intents[i])
    {
      SlotDedupsIffLive(at, scope, key, intents[i], ids[i]);
      HolderIffLive(db, Resolve(intents[i], scope, Some(key)));
    }
    FitIffInsertable(at, db, w, intents, ids);
    WriteCommitsIff(db, w);
    if CommitWrite(db, w).Some? {
      forall i | 0 <= i < |intents|
        ensures OutcomeOf(at, db, CommitWrite(db, w).value, scope, key, intents[i], ids[i])
      {
        SlotDedupsIffLive(at, scope, key, intents[i], ids[i]);
      }
    }
  }

  /**
   After the commit an intent has the job that was live when it was resolved, as it was
   found by the commit, or its new pending one.
   */
  ghost predicate OutcomeOf(at: Db, db: Db, db': Db, scope: string, key: string, it: Intent, id: string) {
    var r := Resolve(it, scope, Some(key));
    if IsLive(at, r) then
      exists k :: k in at.jobs && !Terminal(at.jobs[k].state) && at.jobs[k].dedup == DedupOf(r)
        && k in db.jobs && k in db'.jobs && db'.jobs[k] == db.jobs[k]
    else id in db'.jobs && db'.jobs[id] == NewJob(id, r, db.now)
  }

  lemma FitIffInsertable(at: Db, db: Db, w: Write, intents: seq<Intent>, ids: seq<string>)
    requires |w.slots| == |intents| == |ids|
    requires forall i :: 0 <= i < |ids| ==> ids[i] !in db.jobs
    requires forall i, j :: 0 <= i < j < |ids| ==> ids[i] != ids[j]
    requires forall i :: 0 <= i < |intents| ==> (w.slots[i].ToInsert? <==> Fresh(at, w.scope, w.key, intents[i]))
    requires forall i :: 0 <= i < |intents| && w.slots[i].ToInsert? ==>
      w.slots[i] == ToInsert(ids[i], Resolve(intents[i], w.scope, Some(w.key)))
    requires forall i :: 0 <= i < |intents| ==>
      (NotHeld(db, DedupOf(Resolve(intents[i], w.scope, Some(w.key)))) <==> Fresh(db, w.scope, w.key, intents[i]))
    ensures IntentsFit(at, db, w, intents) <==> Insertable(db.(rows := WrittenRows(db.rows, w)), w.slots)
  {
    var written := db.(rows := WrittenRows(db.rows, w));
    forall i | 0 <= i < |intents|
      ensures InputsHold(written.rows, w.scope, Resolve(intents[i], w.scope, Some(w.key)).inputs)
        <==> InputsHold(written.rows, w.scope, intents[i].inputs)
    {
      SelfInputResolves(db.rows, w, intents[i]);
    }
    if Insertable(written, w.slots) {
      forall i | 0 <= i < |intents| && Fresh(at, w.scope, w.key, intents[i])
        ensures InputsHold(written.rows, w.scope, intents[i].inputs) && Fresh(db, w.scope, w.key, intents[i])
      {
        assert w.slots[i].ToInsert?;
        assert NotHeld(db, DedupOf(w.slots[i].request));
      }
      forall i, j |
          0 <= i < j < |intents| && Fresh(at, w.scope, w.key, intents[i]) && Fresh(at, w.scope, w.key, intents[j])
        ensures DedupOf(Resolve(intents[i], w.scope, Some(w.key))) != DedupOf(Resolve(intents[j], w.scope, Some(w.key)))
      {
        assert w.slots[i].ToInsert? && w.slots[j].ToInsert?;
      }
    }
    if IntentsFit(at, db, w, intents) {
      forall i | 0 <= i < |intents| && w.slots[i].ToInsert? ensures NotHeld(written, DedupOf(w.slots[i].request)) {
        assert Fresh(at, w.scope, w.key, intents[i]);
        assert NotHeld(db, DedupOf(w.slots[i].request));
      }
    }
  }
}
