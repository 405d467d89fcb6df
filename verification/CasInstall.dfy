/**
 Any number of concurrent writers installing objects into one file store:
 `FsBlobStore::put` and `durable_cas_install` cut at every file-system call, with
 I/O errors, writers killed anywhere, and power losses that leave every file not
 yet synced with arbitrary contents. Rename is atomic and durable.
 */
module CasInstall {
  import opened CasAddress

  datatype File = File(data: Bytes, synced: bool)

  /** The call a writer makes next, or how it ended. */
  datatype Phase =
    | Checking
    | MakingDir
    | Rechecking
    | Creating
    | Writing(written: nat)
    | Syncing
    | Renaming
    | Removing
    | Probing(removed: bool)
    | ReturnedOk(tidy: bool)
    | ReturnedErr
    | Dead

  datatype Writer = Writer(bytes: Bytes, tag: string, phase: Phase)

  datatype Store = Store(files: map<string, File>, writers: map<nat, Writer>)

  datatype Action =
    | Begin(id: nat, bytes: Bytes, tag: string)
    | Proceed(id: nat, failed: bool)
    | WriteSome(id: nat, upTo: nat)
    | Kill(id: nat)
    | PowerLoss(found: map<string, File>)

  predicate Running(p: Phase) { !p.ReturnedOk? && !p.ReturnedErr? && !p.Dead? }

  function FinalPath(hash: Hash, root: string, w: Writer): string {
    PathForHash(root, hash(w.bytes))
  }

  function TmpOf(hash: Hash, root: string, w: Writer): string {
    TmpPath(root, hash(w.bytes), w.tag)
  }

  // ---- One step ---------------------------------------------------------------

  predicate Enabled(a: Action, s: Store) {
    match a
    case Begin(id, _, tag) => id !in s.writers && IsSegment(tag)
    case Proceed(id, _) => id in s.writers && Running(s.writers[id].phase)
    case WriteSome(id, upTo) =>
      && id in s.writers
      && s.writers[id].phase.Writing?
      && s.writers[id].phase.written < upTo <= |s.writers[id].bytes|
    case Kill(id) => id in s.writers && Running(s.writers[id].phase)
    case PowerLoss(found) =>
      && found.Keys == s.files.Keys
      && forall p :: p in found && s.files[p].synced ==> found[p] == s.files[p]
  }

  /** What one call does: the caller's next phase and the files. */
  datatype Effect = Effect(phase: Phase, files: map<string, File>)

  /** One file-system call of the writer of `bytes`; `failed` is its I/O error. */
  function Call(phase: Phase, bytes: Bytes, final: string, tmp: string, files: map<string, File>, failed: bool): Effect
    requires Running(phase)
  {
    match phase
    case Checking =>
      Effect(if failed then ReturnedErr else if final in files then ReturnedOk(true) else MakingDir, files)
    case MakingDir =>
      Effect(if failed then ReturnedErr else Rechecking, files)
    case Rechecking =>
      Effect(if failed then ReturnedErr else if final in files then ReturnedOk(true) else Creating, files)
    case Creating =>
      if failed then Effect(Removing, files) else Effect(Writing(0), files[tmp := File([], false)])
    case Writing(n) =>
      Effect(if failed then Removing else if n == |bytes| then Syncing else Writing(n), files)
    case Syncing =>
      if failed || tmp !in files then Effect(Removing, files)
      else Effect(Renaming, files[tmp := files[tmp].(synced := true)])
    case Renaming =>
      if failed || tmp !in files then Effect(Removing, files)
      else Effect(ReturnedOk(true), files[final := files[tmp]] - {tmp})
    case Removing =>
      if failed then Effect(Probing(tmp !in files), files) else Effect(Probing(true), files - {tmp})
    case Probing(removed) =>
      Effect(if !failed && final in files then ReturnedOk(removed) else ReturnedErr, files)
  }

  /** The writer of `bytes` appends what lies between `from` and `upTo` to its file. */
  function Append(bytes: Bytes, from: nat, upTo: nat, tmp: string, files: map<string, File>): Effect
    requires from <= upTo <= |bytes|
  {
    Effect(Writing(upTo),
           if tmp in files then files[tmp := File(files[tmp].data + bytes[from..upTo], false)] else files)
  }

  function Commit(s: Store, id: nat, e: Effect): Store
    requires id in s.writers
  {
    Store(e.files, s.writers[id := s.writers[id].(phase := e.phase)])
  }

  function CallOf(hash: Hash, root: string, s: Store, id: nat, failed: bool): Effect
    requires id in s.writers && Running(s.writers[id].phase)
  {
    var w := s.writers[id];
    Call(w.phase, w.bytes, FinalPath(hash, root, w), TmpOf(hash, root, w), s.files, failed)
  }

  function Crashed(writers: map<nat, Writer>): map<nat, Writer> {
    map id | id in writers ::
      if Running(writers[id].phase) then writers[id].(phase := Dead) else writers[id]
  }

  function Step(hash: Hash, root: string, s: Store, a: Action): Store
    requires Enabled(a, s)
  {
    match a
    case Begin(id, bytes, tag) => s.(writers := s.writers[id := Writer(bytes, tag, Checking)])
    case Proceed(id, failed) => Commit(s, id, CallOf(hash, root, s, id, failed))
    case WriteSome(id, upTo) =>
      var w := s.writers[id];
      Commit(s, id, Append(w.bytes, w.phase.written, upTo, TmpOf(hash, root, w), s.files))
    case Kill(id) => Commit(s, id, Effect(Dead, s.files))
    case PowerLoss(found) => Store(found, Crashed(s.writers))
  }

  // ---- Runs ---------------------------------------------------------------------

  ghost predicate Legal(hash: Hash, root: string, s: Store, run: seq<Action>)
    decreases |run|
  {
    run == [] || (Enabled(run[0], s) && Legal(hash, root, Step(hash, root, s, run[0]), run[1..]))
  }

  ghost function Exec(hash: Hash, root: string, s: Store, run: seq<Action>): Store
    requires Legal(hash, root, s, run)
    decreases |run|
  {
    if run == [] then s else Exec(hash, root, Step(hash, root, s, run[0]), run[1..])
  }

  /** Process id and nonce are never reused: no writer begins with a tag seen before. */
  ghost predicate FreshTags(s: Store, run: seq<Action>) {
    && (forall i, id :: 0 <= i < |run| && run[i].Begin? && id in s.writers ==>
          s.writers[id].tag != run[i].tag)
    && (forall i, j :: 0 <= i < j < |run| && run[i].Begin? && run[j].Begin? ==> run[i].tag != run[j].tag)
  }

  // ---- The invariant --------------------------------------------------------------

  /** Whatever sits at an address is complete, synced and hashes to it. */
  ghost predicate ObjectsSound(hash: Hash, root: string, files: map<string, File>) {
    forall h :: IsAddress(h) && PathForHash(root, h) in files ==>
      hash(files[PathForHash(root, h)].data) == h && files[PathForHash(root, h)].synced
  }

  ghost predicate WriterSound(hash: Hash, root: string, files: map<string, File>, w: Writer) {
    var tmp := TmpOf(hash, root, w);
    && IsSegment(w.tag)
    && match w.phase
       case Checking | MakingDir | Rechecking | Creating => tmp !in files
       case Writing(n) => n <= |w.bytes| && tmp in files && files[tmp].data == w.bytes[..n]
       case Syncing => tmp in files && files[tmp].data == w.bytes
       case Renaming => tmp in files && files[tmp] == File(w.bytes, true)
       case Probing(removed) => removed ==> tmp !in files
       case ReturnedOk(tidy) => FinalPath(hash, root, w) in files && (tidy ==> tmp !in files)
       case _ => true
  }

  ghost predicate TagsDistinct(s: Store) {
    forall i, j :: i in s.writers && j in s.writers && i != j ==> s.writers[i].tag != s.writers[j].tag
  }

  ghost predicate NoStrayTmps(hash: Hash, root: string, s: Store) {
    forall bytes: Bytes, tag: string :: IsSegment(tag) && TmpPath(root, hash(bytes), tag) in s.files ==>
      exists i :: i in s.writers && s.writers[i].tag == tag
  }

  ghost predicate Inv(hash: Hash, root: string, s: Store) {
    && ObjectsSound(hash, root, s.files)
    && (forall i :: i in s.writers ==> WriterSound(hash, root, s.files, s.writers[i]))
    && TagsDistinct(s)
    && NoStrayTmps(hash, root, s)
  }

  lemma EmptyStoreIsSound(hash: Hash, root: string)
    ensures Inv(hash, root, Store(map[], map[]))
  {
  }

  // ---- Every step keeps it ----------------------------------------------------------

  /** `files'` differs from `files` at most at `tmp`, and at objects it may have added. */
  ghost predicate TouchesOnly(root: string, files: map<string, File>, files': map<string, File>, tmp: string) {
    forall p :: p != tmp && (forall h :: IsAddress(h) ==> p != PathForHash(root, h)) ==>
      (p in files <==> p in files') && (p in files ==> files'[p] == files[p])
  }

  ghost predicate KeepsObjects(root: string, files: map<string, File>, files': map<string, File>) {
    forall h :: IsAddress(h) && PathForHash(root, h) in files ==> PathForHash(root, h) in files'
  }

  /** A writer is not disturbed by what another does to its own temporary file. */
  lemma OthersUndisturbed(hash: Hash, root: string, files: map<string, File>, files': map<string, File>,
                          w: Writer, other: Writer)
    requires WriterSound(hash, root, files, w) && IsSegment(other.tag) && w.tag != other.tag
    requires TouchesOnly(root, files, files', TmpOf(hash, root, other))
    requires KeepsObjects(root, files, files')
    ensures WriterSound(hash, root, files', w)
  {
    var tmp := TmpOf(hash, root, w);
    TmpsAreDistinct(root, hash(w.bytes), w.tag, hash(other.bytes), other.tag);
    forall h | IsAddress(h) ensures tmp != PathForHash(root, h) {
      TmpIsNoObject(root, hash(w.bytes), w.tag, h);
    }
  }

  lemma ObjectsUndisturbed(hash: Hash, root: string, files: map<string, File>, files': map<string, File>, w: Writer)
    requires ObjectsSound(hash, root, files) && IsSegment(w.tag)
    requires forall p :: p != TmpOf(hash, root, w) ==>
      (p in files <==> p in files') && (p in files ==> files'[p] == files[p])
    ensures ObjectsSound(hash, root, files') && KeepsObjects(root, files, files')
  {
    forall h | IsAddress(h) ensures PathForHash(root, h) != TmpOf(hash, root, w) {
      TmpIsNoObject(root, hash(w.bytes), w.tag, h);
    }
  }

  /** The atomic rename publishes a complete, synced object. */
  lemma RenamePublishes(hash: Hash, root: string, files: map<string, File>, w: Writer)
    requires ObjectsSound(hash, root, files) && WriterSound(hash, root, files, w) && w.phase.Renaming?
    ensures var files' := files[FinalPath(hash, root, w) := File(w.bytes, true)] - {TmpOf(hash, root, w)};
      && ObjectsSound(hash, root, files')
      && KeepsObjects(root, files, files')
      && TouchesOnly(root, files, files', TmpOf(hash, root, w))
      && WriterSound(hash, root, files', w.(phase := ReturnedOk(true)))
  {
    var final := FinalPath(hash, root, w);
    forall h | IsAddress(h) ensures PathForHash(root, h) != TmpOf(hash, root, w) {
      TmpIsNoObject(root, hash(w.bytes), w.tag, h);
    }
    forall h | IsAddress(h) && PathForHash(root, h) == final ensures h == hash(w.bytes) {
      PathsAreInjective(root, h, hash(w.bytes));
    }
  }

  /** An effect of writer `w` that keeps objects, others' files and `w` itself sound. */
  ghost predicate EffectSound(hash: Hash, root: string, files: map<string, File>, w: Writer, e: Effect) {
    && ObjectsSound(hash, root, e.files)
    && KeepsObjects(root, files, e.files)
    && TouchesOnly(root, files, e.files, TmpOf(hash, root, w))
    && WriterSound(hash, root, e.files, w.(phase := e.phase))
  }

  lemma CallIsSound(hash: Hash, root: string, files: map<string, File>, w: Writer, failed: bool)
    requires ObjectsSound(hash, root, files) && WriterSound(hash, root, files, w) && Running(w.phase)
    ensures EffectSound(hash, root, files, w,
              Call(w.phase, w.bytes, FinalPath(hash, root, w), TmpOf(hash, root, w), files, failed))
  {
    var e := Call(w.phase, w.bytes, FinalPath(hash, root, w), TmpOf(hash, root, w), files, failed);
    TmpIsNoObject(root, hash(w.bytes), w.tag, hash(w.bytes));
    if w.phase.Renaming? && !failed {
      RenamePublishes(hash, root, files, w);
    } else {
      assert w.phase.Writing? && w.phase.written == |w.bytes| ==> w.bytes[..w.phase.written] == w.bytes;
      ObjectsUndisturbed(hash, root, files, e.files, w);
    }
  }

  lemma AppendIsSound(hash: Hash, root: string, files: map<string, File>, w: Writer, upTo: nat)
    requires ObjectsSound(hash, root, files) && WriterSound(hash, root, files, w)
    requires w.phase.Writing? && w.phase.written < upTo <= |w.bytes|
    ensures EffectSound(hash, root, files, w,
              Append(w.bytes, w.phase.written, upTo, TmpOf(hash, root, w), files))
  {
    var tmp := TmpOf(hash, root, w);
    AppendedData(w.bytes, w.phase.written, upTo, tmp, files);
    ObjectsUndisturbed(hash, root, files, files[tmp := File(w.bytes[..upTo], false)], w);
  }

  lemma AppendedData(bytes: Bytes, from: nat, upTo: nat, tmp: string, files: map<string, File>)
    requires from <= upTo <= |bytes| && tmp in files && files[tmp].data == bytes[..from]
    ensures Append(bytes, from, upTo, tmp, files) == Effect(Writing(upTo), files[tmp := File(bytes[..upTo], false)])
  {
    assert bytes[..from] + bytes[from..upTo] == bytes[..upTo];
  }

  /** A sound effect of one writer keeps the invariant of all. */
  lemma CommitKeepsInv(hash: Hash, root: string, s: Store, id: nat, e: Effect)
    requires Inv(hash, root, s) && id in s.writers
    requires EffectSound(hash, root, s.files, s.writers[id], e)
    ensures Inv(hash, root, Commit(s, id, e))
  {
    var s' := Commit(s, id, e);
    forall j | j in s'.writers ensures WriterSound(hash, root, s'.files, s'.writers[j]) {
      if j != id {
        assert WriterSound(hash, root, s.files, s.writers[j]);
        OthersUndisturbed(hash, root, s.files, s'.files, s.writers[j], s.writers[id]);
      }
    }
    NoNewStrayTmps(hash, root, s, s', id);
  }

  lemma NoNewStrayTmps(hash: Hash, root: string, s: Store, s': Store, id: nat)
    requires NoStrayTmps(hash, root, s) && id in s.writers && IsSegment(s.writers[id].tag)
    requires s'.writers.Keys == s.writers.Keys
    requires forall j :: j in s.writers ==> s'.writers[j].tag == s.writers[j].tag
    requires TouchesOnly(root, s.files, s'.files, TmpOf(hash, root, s.writers[id]))
    ensures NoStrayTmps(hash, root, s')
  {
    forall bytes: Bytes, tag: string | IsSegment(tag) && TmpPath(root, hash(bytes), tag) in s'.files
      ensures exists i :: i in s'.writers && s'.writers[i].tag == tag
    {
      forall h | IsAddress(h) ensures TmpPath(root, hash(bytes), tag) != PathForHash(root, h) {
        TmpIsNoObject(root, hash(bytes), tag, h);
      }
      if tag == s.writers[id].tag {
        assert id in s'.writers && s'.writers[id].tag == tag;
      } else {
        TmpsAreDistinct(root, hash(bytes), tag, hash(s.writers[id].bytes), s.writers[id].tag);
        var i :| i in s.writers && s.writers[i].tag == tag;
        assert i in s'.writers && s'.writers[i].tag == tag;
      }
    }
  }

  /** No temporary file appears, and every writer keeps its tag. */
  lemma TagsCoverTmps(hash: Hash, root: string, s: Store, s': Store)
    requires NoStrayTmps(hash, root, s) && s'.files.Keys == s.files.Keys
    requires forall i :: i in s.writers ==> i in s'.writers && s'.writers[i].tag == s.writers[i].tag
    ensures NoStrayTmps(hash, root, s')
  {
    forall b: Bytes, t: string | IsSegment(t) && TmpPath(root, hash(b), t) in s'.files
      ensures exists i :: i in s'.writers && s'.writers[i].tag == t
    {
      assert TmpPath(root, hash(b), t) in s.files;
      var i :| i in s.writers && s.writers[i].tag == t;
      assert i in s'.writers && s'.writers[i].tag == t;
    }
  }

  lemma FreshTmpIsAbsent(hash: Hash, root: string, s: Store, bytes: Bytes, tag: string)
    requires NoStrayTmps(hash, root, s) && IsSegment(tag)
    requires forall i :: i in s.writers ==> s.writers[i].tag != tag
    ensures WriterSound(hash, root, s.files, Writer(bytes, tag, Checking))
  {
  }

  lemma BeginKeepsInv(hash: Hash, root: string, s: Store, id: nat, bytes: Bytes, tag: string)
    requires Inv(hash, root, s) && Enabled(Begin(id, bytes, tag), s)
    requires forall i :: i in s.writers ==> s.writers[i].tag != tag
    ensures Inv(hash, root, Step(hash, root, s, Begin(id, bytes, tag)))
  {
    var w := Writer(bytes, tag, Checking);
    var s' := s.(writers := s.writers[id := w]);
    FreshTmpIsAbsent(hash, root, s, bytes, tag);
    WithWriterSound(hash, root, s.files, s.writers, id, w);
    TagsCoverTmps(hash, root, s, s');
    assert Step(hash, root, s, Begin(id, bytes, tag)) == s';
  }

  lemma WithWriterSound(hash: Hash, root: string, files: map<string, File>, writers: map<nat, Writer>, id: nat,
                        w: Writer)
    requires forall i :: i in writers ==> WriterSound(hash, root, files, writers[i])
    requires WriterSound(hash, root, files, w)
    ensures var more := writers[id := w]; forall i :: i in more ==> WriterSound(hash, root, files, more[i])
  {
  }

  lemma CrashedIsSound(hash: Hash, root: string, files: map<string, File>, found: map<string, File>, w: Writer)
    requires WriterSound(hash, root, files, w) && found.Keys == files.Keys
    ensures WriterSound(hash, root, found, if Running(w.phase) then w.(phase := Dead) else w)
  {
  }

  lemma PowerLossKeepsInv(hash: Hash, root: string, s: Store, found: map<string, File>)
    requires Inv(hash, root, s) && Enabled(PowerLoss(found), s)
    ensures Inv(hash, root, Step(hash, root, s, PowerLoss(found)))
  {
    var s' := Store(found, Crashed(s.writers));
    forall i | i in s'.writers ensures WriterSound(hash, root, s'.files, s'.writers[i]) {
      CrashedIsSound(hash, root, s.files, found, s.writers[i]);
    }
    TagsCoverTmps(hash, root, s, s');
    assert Step(hash, root, s, PowerLoss(found)) == s';
  }

  lemma StepKeepsInv(hash: Hash, root: string, s: Store, a: Action)
    requires Inv(hash, root, s) && Enabled(a, s)
    requires a.Begin? ==> forall i :: i in s.writers ==> s.writers[i].tag != a.tag
    ensures Inv(hash, root, Step(hash, root, s, a))
    ensures KeepsObjects(root, s.files, Step(hash, root, s, a).files)
  {
    match a
    case Begin(id, bytes, tag) => BeginKeepsInv(hash, root, s, id, bytes, tag);
    case Proceed(id, failed) =>
      assert WriterSound(hash, root, s.files, s.writers[id]);
      CallIsSound(hash, root, s.files, s.writers[id], failed);
      CommitKeepsInv(hash, root, s, id, CallOf(hash, root, s, id, failed));
    case WriteSome(id, upTo) =>
      var w := s.writers[id];
      assert WriterSound(hash, root, s.files, w);
      AppendIsSound(hash, root, s.files, w, upTo);
      CommitKeepsInv(hash, root, s, id, Append(w.bytes, w.phase.written, upTo, TmpOf(hash, root, w), s.files));
    case Kill(id) =>
      assert WriterSound(hash, root, s.files, s.writers[id]);
      CommitKeepsInv(hash, root, s, id, Effect(Dead, s.files));
    case PowerLoss(found) => PowerLossKeepsInv(hash, root, s, found);
  }

  /** Who a writer is never changes, and a finished writer keeps its verdict. */
  lemma StepKeepsWriters(hash: Hash, root: string, s: Store, a: Action)
    requires Enabled(a, s)
    ensures var s' := Step(hash, root, s, a);
      forall i :: i in s.writers ==>
        && i in s'.writers
        && s'.writers[i].tag == s.writers[i].tag
        && (!Running(s.writers[i].phase) ==> s'.writers[i] == s.writers[i])
    ensures forall i :: i in Step(hash, root, s, a).writers && i !in s.writers ==>
      a.Begin? && i == a.id && Step(hash, root, s, a).writers[i].tag == a.tag
  {
  }

  // ---- Whole runs ---------------------------------------------------------------------

  lemma {:induction false} RunKeepsInv(hash: Hash, root: string, s: Store, run: seq<Action>)
    requires Inv(hash, root, s) && Legal(hash, root, s, run) && FreshTags(s, run)
    ensures Inv(hash, root, Exec(hash, root, s, run))
    ensures KeepsObjects(root, s.files, Exec(hash, root, s, run).files)
    ensures forall i :: i in s.writers && !Running(s.writers[i].phase) ==>
      i in Exec(hash, root, s, run).writers && Exec(hash, root, s, run).writers[i] == s.writers[i]
    decreases |run|
  {
    if run != [] {
      var s' := Step(hash, root, s, run[0]);
      StepKeepsInv(hash, root, s, run[0]);
      StepKeepsWriters(hash, root, s, run[0]);
      TagsStayFresh(hash, root, s, run);
      RunKeepsInv(hash, root, s', run[1..]);
    }
  }

  lemma TagsStayFresh(hash: Hash, root: string, s: Store, run: seq<Action>)
    requires run != [] && Enabled(run[0], s) && FreshTags(s, run)
    ensures FreshTags(Step(hash, root, s, run[0]), run[1..])
  {
    var s' := Step(hash, root, s, run[0]);
    StepKeepsWriters(hash, root, s, run[0]);
    forall i, id | 0 <= i < |run[1..]| && run[1..][i].Begin? && id in s'.writers
      ensures s'.writers[id].tag != run[1..][i].tag
    {
      assert run[1..][i] == run[i + 1];
    }
  }

  /**
   Safety over every interleaving: after any run from an empty store, whatever is
   visible at an address is complete and hashes to it, and so is the object of
   every writer that returned success.
   */
  lemma VisibleObjectsAreComplete(hash: Hash, root: string, run: seq<Action>, h: string)
    requires Legal(hash, root, Store(map[], map[]), run) && FreshTags(Store(map[], map[]), run)
    requires IsAddress(h)
    ensures Served(hash, root, Exec(hash, root, Store(map[], map[]), run), h)
  {
    EmptyStoreIsSound(hash, root);
    RunKeepsInv(hash, root, Store(map[], map[]), run);
    SoundStoreServes(hash, root, Exec(hash, root, Store(map[], map[]), run), h);
  }

  /** What readers of address `h` and callers of finished puts can rely on. */
  ghost predicate Served(hash: Hash, root: string, s: Store, h: string)
    requires IsAddress(h)
  {
    && (PathForHash(root, h) in s.files ==>
          hash(s.files[PathForHash(root, h)].data) == h && s.files[PathForHash(root, h)].synced)
    && (forall i :: i in s.writers && s.writers[i].phase.ReturnedOk? ==>
          FinalPath(hash, root, s.writers[i]) in s.files
          && hash(s.files[FinalPath(hash, root, s.writers[i])].data) == hash(s.writers[i].bytes))
  }

  lemma SoundStoreServes(hash: Hash, root: string, s: Store, h: string)
    requires Inv(hash, root, s) && IsAddress(h)
    ensures Served(hash, root, s, h)
  {
    forall i | i in s.writers && s.writers[i].phase.ReturnedOk?
      ensures FinalPath(hash, root, s.writers[i]) in s.files
      ensures hash(s.files[FinalPath(hash, root, s.writers[i])].data) == hash(s.writers[i].bytes)
    {
      assert WriterSound(hash, root, s.files, s.writers[i]);
      assert IsAddress(hash(s.writers[i].bytes));
    }
  }

  /** A put that returned success is served, sound, in every later state. */
  lemma SuccessIsPermanent(hash: Hash, root: string, s: Store, run: seq<Action>, id: nat)
    requires Inv(hash, root, s) && Legal(hash, root, s, run) && FreshTags(s, run)
    requires id in s.writers && s.writers[id].phase.ReturnedOk?
    ensures var s' := Exec(hash, root, s, run);
      var final := FinalPath(hash, root, s.writers[id]);
      final in s'.files && hash(s'.files[final].data) == hash(s.writers[id].bytes) && s'.files[final].synced
  {
    RunKeepsInv(hash, root, s, run);
    assert WriterSound(hash, root, s.files, s.writers[id]);
    assert IsAddress(hash(s.writers[id].bytes));
  }

  /** A put leaves its temporary file behind only when removing it failed, or it was cut short. */
  lemma TidyAfterSuccess(hash: Hash, root: string, s: Store, id: nat)
    requires Inv(hash, root, s) && id in s.writers && s.writers[id].phase == ReturnedOk(true)
    ensures TmpOf(hash, root, s.writers[id]) !in s.files
  {
    assert WriterSound(hash, root, s.files, s.writers[id]);
  }

  // ---- Which puts succeed ---------------------------------------------------------------------

  /** On the way to success, or there. */
  predicate OnTrack(p: Phase) { !p.Removing? && !p.Probing? && !p.ReturnedErr? && !p.Dead? }

  /** The step is no failed call or kill of this writer and no power loss. */
  predicate Spares(a: Action, id: nat) { a != Proceed(id, true) && a != Kill(id) && !a.PowerLoss? }

  /**
   Where one call leads, failed or not. It succeeds exactly when it finds the object
   or renames; it fails exactly when a check or the directory fails, or when nothing
   is found at the end of a writing that failed; a failed writing cleans up first.
   */
  lemma CallOutcomeIff(hash: Hash, root: string, s: Store, id: nat, failed: bool)
    requires Inv(hash, root, s) && id in s.writers && Running(s.writers[id].phase)
    ensures var w := s.writers[id];
      var p, found := CallOf(hash, root, s, id, failed).phase, FinalPath(hash, root, w) in s.files;
      var checks, writes := w.phase.Checking? || w.phase.Rechecking?, w.phase.Creating? || w.phase.Writing?
                            || w.phase.Syncing? || w.phase.Renaming?;
      && (p.ReturnedOk? <==> !failed && ((found && (checks || w.phase.Probing?)) || w.phase.Renaming?))
      && (p.ReturnedErr? <==> (failed && (checks || w.phase.MakingDir?)) || (w.phase.Probing? && (failed || !found)))
      && (p.Removing? <==> failed && writes)
      && (p.Probing? <==> w.phase.Removing?)
      && !p.Dead?
  {
    assert WriterSound(hash, root, s.files, s.writers[id]);
  }

  /**
   What one call does to the files, under the invariant: a failed call nothing, a
   creation an empty unsynced file, a sync the same data safe, a rename the object in
   place of the temporary file, a removal that file gone, every other call nothing.
   */
  lemma CallFiles(hash: Hash, root: string, s: Store, id: nat, failed: bool)
    requires Inv(hash, root, s) && id in s.writers && Running(s.writers[id].phase)
    ensures var w, files' := s.writers[id], CallOf(hash, root, s, id, failed).files;
      var tmp, final := TmpOf(hash, root, w), FinalPath(hash, root, w);
      files' ==
        if failed then s.files
        else match w.phase
             case Creating => s.files[tmp := File([], false)]
             case Syncing => s.files[tmp := File(w.bytes, true)]
             case Renaming => s.files[final := File(w.bytes, true)] - {tmp}
             case Removing => s.files - {tmp}
             case _ => s.files
    ensures var w, p := s.writers[id], CallOf(hash, root, s, id, failed).phase;
      w.phase.Removing? && !failed ==> p == Probing(true)
  {
    assert WriterSound(hash, root, s.files, s.writers[id]);
  }

  /** A put whose writing failed still succeeds exactly when its probe finds the object. */
  lemma FailedWritingSucceedsIff(hash: Hash, root: string, s: Store, id: nat, failed: bool)
    requires id in s.writers && s.writers[id].phase.Probing?
    ensures var s' := Step(hash, root, s, Proceed(id, failed));
      && s'.files == s.files
      && s'.writers[id].phase == (if !failed && FinalPath(hash, root, s.writers[id]) in s.files
                                  then ReturnedOk(s.writers[id].phase.removed) else ReturnedErr)
  {
  }

  lemma OnTrackStep(hash: Hash, root: string, s: Store, a: Action, id: nat)
    requires Inv(hash, root, s) && Enabled(a, s) && id in s.writers && OnTrack(s.writers[id].phase) && Spares(a, id)
    ensures var s' := Step(hash, root, s, a); id in s'.writers && OnTrack(s'.writers[id].phase)
    ensures var s' := Step(hash, root, s, a); s'.writers[id].bytes == s.writers[id].bytes
  {
    if a.Proceed? && a.id == id {
      CallOutcomeIff(hash, root, s, id, false);
    }
  }

  /**
   Liveness, first half: a put that meets no failed call, kill or power loss never
   fails and never has to clean up, whatever the others do or suffer.
   */
  lemma {:induction false} UndisturbedPutStaysOnTrack(hash: Hash, root: string, s: Store, run: seq<Action>, id: nat)
    requires Inv(hash, root, s) && Legal(hash, root, s, run) && FreshTags(s, run)
    requires id in s.writers && OnTrack(s.writers[id].phase) && forall i :: 0 <= i < |run| ==> Spares(run[i], id)
    ensures var s' := Exec(hash, root, s, run); id in s'.writers && OnTrack(s'.writers[id].phase)
    decreases |run|
  {
    if run != [] {
      OnTrackStep(hash, root, s, run[0], id);
      StepKeepsInv(hash, root, s, run[0]);
      TagsStayFresh(hash, root, s, run);
      UndisturbedPutStaysOnTrack(hash, root, Step(hash, root, s, run[0]), run[1..], id);
    }
  }

  /** How many calls a put on track still needs at most. */
  function Left(w: Writer): nat {
    match w.phase
    case Checking => 7 + |w.bytes|
    case MakingDir => 6 + |w.bytes|
    case Rechecking => 5 + |w.bytes|
    case Creating => 4 + |w.bytes|
    case Writing(n) => 3 + if n < |w.bytes| then |w.bytes| - n else 0
    case Syncing => 2
    case Renaming => 1
    case _ => 0
  }

  /** A call of this writer that gets somewhere: all but one that writes nothing of what is left. */
  predicate Advances(s: Store, a: Action, id: nat) {
    && id in s.writers
    && ((a == Proceed(id, false) && Running(s.writers[id].phase)
         && !(s.writers[id].phase.Writing? && s.writers[id].phase.written < |s.writers[id].bytes|))
        || (a.WriteSome? && a.id == id))
  }

  lemma NothingLeft(w: Writer)
    requires Left(w) == 0 && OnTrack(w.phase)
    ensures w.phase.ReturnedOk?
  {
  }

  /** One call without an error, with the temporary file where it has to be. */
  lemma AdvanceCall(w: Writer, final: string, tmp: string, files: map<string, File>)
    requires Running(w.phase) && OnTrack(w.phase)
    requires w.phase.Syncing? || w.phase.Renaming? ==> tmp in files
    requires w.phase.Writing? ==> w.phase.written <= |w.bytes|
    ensures var next := w.(phase := Call(w.phase, w.bytes, final, tmp, files, false).phase);
      Left(next) + (if w.phase.Writing? && w.phase.written < |w.bytes| then 0 else 1) <= Left(w)
  {
  }

  lemma AdvanceStep(hash: Hash, root: string, s: Store, a: Action, id: nat)
    requires Inv(hash, root, s) && Enabled(a, s) && id in s.writers && OnTrack(s.writers[id].phase) && Spares(a, id)
    ensures var s' := Step(hash, root, s, a);
      && id in s'.writers
      && Left(s'.writers[id]) + (if Advances(s, a, id) then 1 else 0) <= Left(s.writers[id])
  {
    var w := s.writers[id];
    assert WriterSound(hash, root, s.files, w);
    if a.Proceed? && a.id == id {
      AdvanceCall(w, FinalPath(hash, root, w), TmpOf(hash, root, w), s.files);
    } else if a.WriteSome? && a.id == id {
      assert Step(hash, root, s, a).writers[id].phase == Writing(a.upTo);
    } else {
      assert Step(hash, root, s, a).writers[id] == w;
    }
  }

  /** How many calls of this writer get somewhere in a run. */
  ghost function Calls(hash: Hash, root: string, s: Store, run: seq<Action>, id: nat): nat
    requires Legal(hash, root, s, run)
    decreases |run|
  {
    if run == [] then 0
    else (if Advances(s, run[0], id) then 1 else 0) + Calls(hash, root, Step(hash, root, s, run[0]), run[1..], id)
  }

  /**
   Liveness, second half: such a put has returned success after at most seven calls
   and one for each byte, however they interleave with the others.
   */
  lemma UndisturbedPutSucceeds(hash: Hash, root: string, s: Store, run: seq<Action>, id: nat)
    requires Inv(hash, root, s) && Legal(hash, root, s, run) && FreshTags(s, run)
    requires id in s.writers && OnTrack(s.writers[id].phase) && forall i :: 0 <= i < |run| ==> Spares(run[i], id)
    requires Calls(hash, root, s, run, id) >= Left(s.writers[id])
    ensures var s' := Exec(hash, root, s, run); id in s'.writers && s'.writers[id].phase.ReturnedOk?
  {
    UndisturbedPutStaysOnTrack(hash, root, s, run, id);
    CallsUseUp(hash, root, s, run, id);
    NothingLeft(Exec(hash, root, s, run).writers[id]);
  }

  lemma {:induction false} CallsUseUp(hash: Hash, root: string, s: Store, run: seq<Action>, id: nat)
    requires Inv(hash, root, s) && Legal(hash, root, s, run) && FreshTags(s, run)
    requires id in s.writers && OnTrack(s.writers[id].phase) && forall i :: 0 <= i < |run| ==> Spares(run[i], id)
    ensures var s' := Exec(hash, root, s, run);
      id in s'.writers && Left(s'.writers[id]) + Calls(hash, root, s, run, id) <= Left(s.writers[id])
    decreases |run|
  {
    if run != [] {
      OnTrackStep(hash, root, s, run[0], id);
      AdvanceStep(hash, root, s, run[0], id);
      StepKeepsInv(hash, root, s, run[0]);
      TagsStayFresh(hash, root, s, run);
      CallsUseUp(hash, root, Step(hash, root, s, run[0]), run[1..], id);
    }
  }

  /** Bytes that are already in the store are put again without writing a thing. */
  lemma PutAgainTouchesNothing(hash: Hash, root: string, s: Store, id: nat, bytes: Bytes, tag: string)
    requires id !in s.writers && IsSegment(tag) && PathForHash(root, hash(bytes)) in s.files
    ensures var s1 := Step(hash, root, s, Begin(id, bytes, tag));
      var s2 := Step(hash, root, s1, Proceed(id, false));
      s2.writers[id].phase == ReturnedOk(true) && s2.files == s.files
  {
  }

  // ---- Why the tags must be distinct ----------------------------------------------------

  /** Append one enabled action to a run. */
  lemma {:induction false} RunExtends(hash: Hash, root: string, s: Store, run: seq<Action>, a: Action)
    requires Legal(hash, root, s, run) && Enabled(a, Exec(hash, root, s, run))
    ensures Legal(hash, root, s, run + [a])
    ensures Exec(hash, root, s, run + [a]) == Step(hash, root, Exec(hash, root, s, run), a)
    decreases |run|
  {
    if run == [] {
      assert run + [a] == [a];
      assert Legal(hash, root, Step(hash, root, s, a), []);
    } else {
      assert (run + [a])[1..] == run[1..] + [a];
      RunExtends(hash, root, Step(hash, root, s, run[0]), run[1..], a);
    }
  }

  /** A state some legal run from the empty store reaches. */
  ghost predicate Reached(hash: Hash, root: string, s: Store) {
    exists run :: Legal(hash, root, Store(map[], map[]), run) && Exec(hash, root, Store(map[], map[]), run) == s
  }

  lemma ReachedStep(hash: Hash, root: string, s: Store, a: Action)
    requires Reached(hash, root, s) && Enabled(a, s)
    ensures Reached(hash, root, Step(hash, root, s, a))
  {
    var empty := Store(map[], map[]);
    var run :| Legal(hash, root, empty, run) && Exec(hash, root, empty, run) == s;
    RunExtends(hash, root, empty, run, a);
  }

  /** Two writers of the same bytes that share a tag. */
  function Twins(bytes: Bytes, tag: string, a: Phase, b: Phase, files: map<string, File>): Store {
    Store(files, map[0 := Writer(bytes, tag, a), 1 := Writer(bytes, tag, b)])
  }

  /** The first twin's next call, without error. */
  lemma TwinsCommit(bytes: Bytes, tag: string, a: Phase, b: Phase, files: map<string, File>, e: Effect)
    ensures Commit(Twins(bytes, tag, a, b, files), 0, e) == Twins(bytes, tag, e.phase, b, e.files)
    ensures Commit(Twins(bytes, tag, a, b, files), 1, e) == Twins(bytes, tag, a, e.phase, e.files)
  {
  }

  lemma FirstCalls(hash: Hash, root: string, bytes: Bytes, tag: string, a: Phase, b: Phase,
                   files: map<string, File>) returns (e: Effect)
    requires Reached(hash, root, Twins(bytes, tag, a, b, files)) && Running(a)
    ensures e == Call(a, bytes, PathForHash(root, hash(bytes)), TmpPath(root, hash(bytes), tag), files, false)
    ensures Reached(hash, root, Twins(bytes, tag, e.phase, b, e.files))
  {
    var s := Twins(bytes, tag, a, b, files);
    e := CallOf(hash, root, s, 0, false);
    ReachedStep(hash, root, s, Proceed(0, false));
    TwinsCommit(bytes, tag, a, b, files, e);
  }

  lemma SecondCalls(hash: Hash, root: string, bytes: Bytes, tag: string, a: Phase, b: Phase,
                    files: map<string, File>) returns (e: Effect)
    requires Reached(hash, root, Twins(bytes, tag, a, b, files)) && Running(b)
    ensures e == Call(b, bytes, PathForHash(root, hash(bytes)), TmpPath(root, hash(bytes), tag), files, false)
    ensures Reached(hash, root, Twins(bytes, tag, a, e.phase, e.files))
  {
    var s := Twins(bytes, tag, a, b, files);
    e := CallOf(hash, root, s, 1, false);
    ReachedStep(hash, root, s, Proceed(1, false));
    TwinsCommit(bytes, tag, a, b, files, e);
  }

  lemma TwinsBegin(hash: Hash, root: string, bytes: Bytes, tag: string)
    requires IsSegment(tag)
    ensures Reached(hash, root, Twins(bytes, tag, Checking, Checking, map[]))
  {
    var empty := Store(map[], map[]);
    assert Legal(hash, root, empty, []) && Exec(hash, root, empty, []) == empty;
    ReachedStep(hash, root, empty, Begin(0, bytes, tag));
    var one := Store(map[], map[0 := Writer(bytes, tag, Checking)]);
    assert Step(hash, root, empty, Begin(0, bytes, tag)) == one;
    ReachedStep(hash, root, one, Begin(1, bytes, tag));
    assert Step(hash, root, one, Begin(1, bytes, tag)) == Twins(bytes, tag, Checking, Checking, map[]);
  }

  /** Both pass their existence checks before either creates the file. */
  lemma TwinsReadyToCreate(hash: Hash, root: string, bytes: Bytes, tag: string)
    requires IsSegment(tag)
    ensures Reached(hash, root, Twins(bytes, tag, Creating, Creating, map[]))
  {
    TwinsBegin(hash, root, bytes, tag);
    var e := FirstCalls(hash, root, bytes, tag, Checking, Checking, map[]);
    e := FirstCalls(hash, root, bytes, tag, MakingDir, Checking, map[]);
    e := FirstCalls(hash, root, bytes, tag, Rechecking, Checking, map[]);
    e := SecondCalls(hash, root, bytes, tag, Creating, Checking, map[]);
    e := SecondCalls(hash, root, bytes, tag, Creating, MakingDir, map[]);
    e := SecondCalls(hash, root, bytes, tag, Creating, Rechecking, map[]);
  }

  /** The first twin's whole write, from an empty file to an unsynced full one. */
  lemma FirstWrites(hash: Hash, root: string, bytes: Bytes, tag: string, b: Phase)
    requires bytes != []
    requires var tmp := TmpPath(root, hash(bytes), tag);
      Reached(hash, root, Twins(bytes, tag, Writing(0), b, map[tmp := File([], false)]))
    ensures var tmp := TmpPath(root, hash(bytes), tag);
      Reached(hash, root, Twins(bytes, tag, Writing(|bytes|), b, map[tmp := File(bytes, false)]))
  {
    var tmp := TmpPath(root, hash(bytes), tag);
    var created: map<string, File> := map[tmp := File([], false)];
    var full: map<string, File> := map[tmp := File(bytes, false)];
    var s := Twins(bytes, tag, Writing(0), b, created);
    ReachedStep(hash, root, s, WriteSome(0, |bytes|));
    var e := Append(bytes, 0, |bytes|, tmp, created);
    assert e.files == full by {
      assert [] + bytes[0..|bytes|] == bytes;
    }
    TwinsCommit(bytes, tag, Writing(0), b, created, e);
  }

  /** The first twin writes and syncs all its bytes before the second creates. */
  lemma FirstWritesAll(hash: Hash, root: string, bytes: Bytes, tag: string)
    requires IsSegment(tag) && bytes != []
    ensures Reached(hash, root,
              Twins(bytes, tag, Renaming, Creating, map[TmpPath(root, hash(bytes), tag) := File(bytes, true)]))
  {
    var tmp := TmpPath(root, hash(bytes), tag);
    TwinsReadyToCreate(hash, root, bytes, tag);
    var created := FirstCalls(hash, root, bytes, tag, Creating, Creating, map[]);
    assert created.files == map[tmp := File([], false)];
    FirstWrites(hash, root, bytes, tag, Creating);
    var full: map<string, File> := map[tmp := File(bytes, false)];
    FirstSyncs(hash, root, bytes, tag, full);
  }

  lemma FirstSyncs(hash: Hash, root: string, bytes: Bytes, tag: string, full: map<string, File>)
    requires full == map[TmpPath(root, hash(bytes), tag) := File(bytes, false)]
    requires Reached(hash, root, Twins(bytes, tag, Writing(|bytes|), Creating, full))
    ensures Reached(hash, root,
              Twins(bytes, tag, Renaming, Creating, map[TmpPath(root, hash(bytes), tag) := File(bytes, true)]))
  {
    var tmp, final := TmpPath(root, hash(bytes), tag), PathForHash(root, hash(bytes));
    var e := FirstCalls(hash, root, bytes, tag, Writing(|bytes|), Creating, full);
    SyncingCalls(bytes, final, tmp, full);
    e := FirstCalls(hash, root, bytes, tag, Syncing, Creating, full);
  }

  lemma SyncingCalls(bytes: Bytes, final: string, tmp: string, full: map<string, File>)
    requires full == map[tmp := File(bytes, false)]
    ensures Call(Writing(|bytes|), bytes, final, tmp, full, false) == Effect(Syncing, full)
    ensures Call(Syncing, bytes, final, tmp, full, false) == Effect(Renaming, map[tmp := File(bytes, true)])
  {
    assert full[tmp := full[tmp].(synced := true)] == map[tmp := File(bytes, true)];
  }

  /** The second twin's create empties the shared file; the first renames it. */
  lemma EmptiedThenRenamed(hash: Hash, root: string, bytes: Bytes, tag: string)
    returns (files: map<string, File>)
    requires IsSegment(tag) && bytes != []
    ensures Reached(hash, root, Twins(bytes, tag, ReturnedOk(true), Writing(0), files))
    ensures PathForHash(root, hash(bytes)) in files
    ensures files[PathForHash(root, hash(bytes))].data == []
  {
    var tmp := TmpPath(root, hash(bytes), tag);
    FirstWritesAll(hash, root, bytes, tag);
    var e := SecondCalls(hash, root, bytes, tag, Renaming, Creating, map[tmp := File(bytes, true)]);
    files := FirstRenames(hash, root, bytes, tag, e.files);
  }

  lemma FirstRenames(hash: Hash, root: string, bytes: Bytes, tag: string, emptied: map<string, File>)
    returns (files: map<string, File>)
    requires IsSegment(tag)
    requires var tmp := TmpPath(root, hash(bytes), tag); tmp in emptied && emptied[tmp] == File([], false)
    requires Reached(hash, root, Twins(bytes, tag, Renaming, Writing(0), emptied))
    ensures Reached(hash, root, Twins(bytes, tag, ReturnedOk(true), Writing(0), files))
    ensures PathForHash(root, hash(bytes)) in files
    ensures files[PathForHash(root, hash(bytes))].data == []
  {
    TmpIsNoObject(root, hash(bytes), tag, hash(bytes));
    var e := FirstCalls(hash, root, bytes, tag, Renaming, Writing(0), emptied);
    files := e.files;
  }

  /**
   Safety needs the distinct tags: with a reused one, the second writer empties
   the shared temporary file just before the first renames it, so an empty file is
   served under the address of other bytes and its put reports success.
   */
  lemma ReusedTagServesTruncatedObject(hash: Hash, root: string, bytes: Bytes, tag: string)
    requires IsSegment(tag) && hash([]) != hash(bytes)
    ensures exists s :: Reached(hash, root, s) && !Served(hash, root, s, hash(bytes))
  {
    var files := EmptiedThenRenamed(hash, root, bytes, tag);
    TruncatedIsNotServed(hash, root, Twins(bytes, tag, ReturnedOk(true), Writing(0), files), hash(bytes));
  }

  lemma TruncatedIsNotServed(hash: Hash, root: string, s: Store, h: string)
    requires IsAddress(h) && hash([]) != h
    requires PathForHash(root, h) in s.files && s.files[PathForHash(root, h)].data == []
    ensures !Served(hash, root, s, h)
  {
  }
}
