/**
 Moving artifact rows to proven copies (`relocate_artifacts`) while other actors
 rebind the same rows: before each rebind the table is whatever `Env` says the
 others left. Also the order of `store_artifact`: bytes first, row second.
 */
module Artifacts {
  import opened Wrappers
  import opened CasAddress
  import opened BlobStore
  import opened Relocate

  type Rows = map<string, string>

  datatype Artifact = Artifact(id: string, location: string)

  /** What one iteration meets: the copy's weather, the table others left, a store error. */
  datatype Env = Env(weather: Weather, rows: Rows, storeFails: bool)

  datatype Relocation =
    | Relocated(id: string, src: string, dst: string)
    | GuardRejected(id: string)
    | Failed(id: string, error: BlobError)

  datatype ArtifactReport = ArtifactReport(
    scanned: nat, relocated: nat, guardRejected: nat, failed: nat, outcomes: seq<Relocation>)

  const NO_ARTIFACTS := ArtifactReport(0, 0, 0, 0, [])

  // ---- The guarded rebind ------------------------------------------------------

  /** Rewrites the row only while it still holds the expected location. */
  function Rebind(rows: Rows, id: string, expected: string, location: string): (bool, Rows) {
    if id in rows && rows[id] == expected then (true, rows[id := location]) else (false, rows)
  }

  class ArtifactTable {
    var rows: Rows

    constructor (rows: Rows)
      ensures this.rows == rows
    {
      this.rows := rows;
    }

    /** Everything other actors did since the last call. */
    method Interfere(left: Rows)
      modifies this
      ensures rows == left
    {
      rows := left;
    }

    method RebindLocation(id: string, expected: string, location: string) returns (rebound: bool)
      modifies this
      ensures (rebound, rows) == Rebind(old(rows), id, expected, location)
    {
      rebound := id in rows && rows[id] == expected;
      if rebound {
        rows := rows[id := location];
      }
    }

    method Register(id: string, location: string)
      modifies this
      ensures rows == old(rows)[id := location]
    {
      rows := rows[id := location];
    }
  }

  // ---- The loop ------------------------------------------------------------------

  /** The copies of one run, into a destination that changes; the source is fixed, or the destination itself. */
  type RunCopy = (Fs, string, Weather) -> (Result<RelocatedObject, BlobError>, Fs)

  ghost predicate Copies(copy: RunCopy, hash: Hash, src: Fs, shared: bool) {
    forall from: Fs, dst: Fs, location: string, w: Weather {:trigger RelocateFs(hash, from, dst, location, w)} ::
      from == (if shared then dst else src) ==> copy(dst, location, w) == RelocateFs(hash, from, dst, location, w)
  }

  function RunCopier(hash: Hash, src: Fs, shared: bool): (copy: RunCopy)
    ensures Copies(copy, hash, src, shared)
  {
    (dst: Fs, location, w) => RelocateFs(hash, if shared then dst else src, dst, location, w)
  }

  datatype Progress = Progress(report: ArtifactReport, dst: Fs, rows: Rows, aborted: bool)

  /** The bookkeeping of one iteration, given its copy's result. */
  function Record(at: Progress, art: Artifact, env: Env, copy: Result<RelocatedObject, BlobError>, dst: Fs): Progress {
    var report := at.report.(scanned := at.report.scanned + 1);
    match copy
    case Err(e) =>
      Progress(report.(failed := report.failed + 1, outcomes := report.outcomes + [Failed(art.id, e)]),
               dst, env.rows, false)
    case Ok(obj) =>
      if env.storeFails then Progress(report, dst, env.rows, true)
      else
        var (rebound, rows) := Rebind(env.rows, art.id, art.location, obj.dst);
        if rebound then
          Progress(report.(relocated := report.relocated + 1,
                           outcomes := report.outcomes + [Relocated(art.id, art.location, obj.dst)]),
                   dst, rows, false)
        else
          Progress(report.(guardRejected := report.guardRejected + 1,
                           outcomes := report.outcomes + [GuardRejected(art.id)]),
                   dst, rows, false)
  }

  function Advance(copy: RunCopy, at: Progress, art: Artifact, env: Env): Progress {
    if at.aborted then at
    else
      var (result, dst) := copy(at.dst, art.location, env.weather);
      Record(at, art, env, result, dst)
  }

  /** After the first `n` rows of the listing. */
  function After(copy: RunCopy, dst: Fs, rows: Rows, listing: seq<Artifact>, envs: seq<Env>, n: nat): Progress
    requires n <= |listing| == |envs|
  {
    if n == 0 then Progress(NO_ARTIFACTS, dst, rows, false)
    else Advance(copy, After(copy, dst, rows, listing, envs, n - 1), listing[n - 1], envs[n - 1])
  }

  lemma AfterStep(copy: RunCopy, dst: Fs, rows: Rows, listing: seq<Artifact>, envs: seq<Env>, n: nat)
    returns (next: Progress)
    requires n < |listing| == |envs|
    ensures next == Advance(copy, After(copy, dst, rows, listing, envs, n), listing[n], envs[n])
    ensures next == After(copy, dst, rows, listing, envs, n + 1)
  {
    next := After(copy, dst, rows, listing, envs, n + 1);
  }

  /** `None` when a rebind's store error ended the run early. The two stores may be one. */
  method RelocateArtifacts(table: ArtifactTable, src: FsBlobStore, dst: FsBlobStore, listing: seq<Artifact>,
                            envs: seq<Env>)
    returns (r: Option<ArtifactReport>)
    requires src.hash == dst.hash && |listing| == |envs|
    modifies table, dst`files
    ensures var copy := RunCopier(dst.hash, old(src.State()), src == dst);
      var end := After(copy, old(dst.State()), old(table.rows), listing, envs, |listing|);
      && dst.State() == end.dst
      && table.rows == end.rows
      && r == (if end.aborted then None else Some(end.report))
    ensures src != dst ==> src.State() == old(src.State())
  {
    r := RelocateRows(RunCopier(dst.hash, src.State(), src == dst), src.State(), table, src, dst, listing, envs);
  }

  /** The loop, with its copies as a function value. */
  method RelocateRows(ghost copy: RunCopy, ghost src0: Fs, table: ArtifactTable, src: FsBlobStore, dst: FsBlobStore,
                      listing: seq<Artifact>, envs: seq<Env>) returns (r: Option<ArtifactReport>)
    requires src.hash == dst.hash && Copies(copy, dst.hash, src0, src == dst) && src.State() == src0
    requires |listing| == |envs|
    modifies table, dst`files
    ensures var end := After(copy, old(dst.State()), old(table.rows), listing, envs, |listing|);
      && dst.State() == end.dst
      && table.rows == end.rows
      && r == (if end.aborted then None else Some(end.report))
    ensures src != dst ==> src.State() == src0
  {
    var report := NO_ARTIFACTS;
    ghost var dst0, rows0 := dst.State(), table.rows;
    ghost var at := After(copy, dst0, rows0, listing, envs, 0);
    for i := 0 to |listing|
      invariant src != dst ==> src.State() == src0
      invariant at == After(copy, dst0, rows0, listing, envs, i)
      invariant !at.aborted && at.report == report && at.dst == dst.State() && at.rows == table.rows
    {
      ghost var next := AfterStep(copy, dst0, rows0, listing, envs, i);
      r := OneArtifact(copy, src0, table, src, dst, report, listing[i], envs[i], at, next);
      at := next;
      if r.None? {
        AbortIsFinal(copy, dst0, rows0, listing, envs, i + 1, |listing|);
        return;
      }
      report := r.value;
    }
    r := Some(report);
  }

  method CopyInRun(ghost copy: RunCopy, ghost src0: Fs, src: FsBlobStore, dst: FsBlobStore, location: string,
                   w: Weather)
    returns (r: Result<RelocatedObject, BlobError>)
    requires src.hash == dst.hash && Copies(copy, dst.hash, src0, src == dst) && (src != dst ==> src.State() == src0)
    modifies dst`files
    ensures (r, dst.State()) == copy(old(dst.State()), location, w)
    ensures src != dst ==> src.State() == src0
  {
    r := RelocateObject(src, dst, location, w);
  }

  /** One iteration: copy, let the others act, rebind under the guard, count. */
  method OneArtifact(ghost copy: RunCopy, ghost src0: Fs, table: ArtifactTable, src: FsBlobStore, dst: FsBlobStore,
                     report: ArtifactReport, art: Artifact, env: Env, ghost at: Progress, ghost next: Progress)
    returns (r: Option<ArtifactReport>)
    requires src.hash == dst.hash && Copies(copy, dst.hash, src0, src == dst) && (src != dst ==> src.State() == src0)
    requires !at.aborted && at.report == report && at.dst == dst.State() && at.rows == table.rows
    requires next == Advance(copy, at, art, env)
    modifies table, dst`files
    ensures dst.State() == next.dst
    ensures table.rows == next.rows
    ensures r == (if next.aborted then None else Some(next.report))
    ensures src != dst ==> src.State() == src0
  {
    var result := CopyInRun(copy, src0, src, dst, art.location, env.weather);
    table.Interfere(env.rows);
    r := Settle(table, report, art, result, env, at, dst.State());
  }

  /** The rest of one iteration, after its copy: rebind under the guard and count. */
  method Settle(table: ArtifactTable, report: ArtifactReport, art: Artifact, copy: Result<RelocatedObject, BlobError>,
                env: Env, ghost at: Progress, ghost dst: Fs) returns (r: Option<ArtifactReport>)
    requires table.rows == env.rows && at.report == report
    modifies table
    ensures var next := Record(at, art, env, copy, dst);
      table.rows == next.rows && r == (if next.aborted then None else Some(next.report))
  {
    var counted := report.(scanned := report.scanned + 1);
    match copy {
      case Ok(obj) =>
        if env.storeFails {
          return None;
        }
        var rebound := table.RebindLocation(art.id, art.location, obj.dst);
        if rebound {
          return Some(counted.(relocated := counted.relocated + 1,
                               outcomes := counted.outcomes + [Relocated(art.id, art.location, obj.dst)]));
        } else {
          return Some(counted.(guardRejected := counted.guardRejected + 1,
                               outcomes := counted.outcomes + [GuardRejected(art.id)]));
        }
      case Err(e) =>
        return Some(counted.(failed := counted.failed + 1, outcomes := counted.outcomes + [Failed(art.id, e)]));
    }
  }

  lemma {:induction false} AbortIsFinal(copy: RunCopy, dst: Fs, rows: Rows, listing: seq<Artifact>,
                                        envs: seq<Env>, m: nat, n: nat)
    requires m <= n <= |listing| == |envs|
    requires After(copy, dst, rows, listing, envs, m).aborted
    ensures After(copy, dst, rows, listing, envs, n) == After(copy, dst, rows, listing, envs, m)
  {
    if m < n {
      AbortIsFinal(copy, dst, rows, listing, envs, m, n - 1);
    }
  }

  // ---- What the loop promises ------------------------------------------------------

  function CountRelocated(outcomes: seq<Relocation>): nat {
    if outcomes == [] then 0
    else CountRelocated(outcomes[..|outcomes| - 1]) + if outcomes[|outcomes| - 1].Relocated? then 1 else 0
  }

  function CountRejected(outcomes: seq<Relocation>): nat {
    if outcomes == [] then 0
    else CountRejected(outcomes[..|outcomes| - 1]) + if outcomes[|outcomes| - 1].GuardRejected? then 1 else 0
  }

  /** A report of the first `n` rows: one outcome a row, and counters that agree with them. */
  ghost predicate Balanced(at: Progress, listing: seq<Artifact>, n: nat) { BalancedReport(at.report, listing, n) }

  ghost predicate BalancedReport(r: ArtifactReport, listing: seq<Artifact>, n: nat) {
    && n <= |listing|
    && r.relocated + r.guardRejected + r.failed == r.scanned == n == |r.outcomes|
    && (forall i :: 0 <= i < n ==> r.outcomes[i].id == listing[i].id)
    && r.relocated == CountRelocated(r.outcomes)
    && r.guardRejected == CountRejected(r.outcomes)
  }

  lemma CountSnoc(outcomes: seq<Relocation>, o: Relocation)
    ensures CountRelocated(outcomes + [o]) == CountRelocated(outcomes) + if o.Relocated? then 1 else 0
    ensures CountRejected(outcomes + [o]) == CountRejected(outcomes) + if o.GuardRejected? then 1 else 0
  {
    assert (outcomes + [o])[..|outcomes|] == outcomes;
  }

  lemma RecordBalances(at: Progress, listing: seq<Artifact>, n: nat, env: Env,
                       copy: Result<RelocatedObject, BlobError>, dst: Fs)
    requires n < |listing| && Balanced(at, listing, n)
    ensures var next := Record(at, listing[n], env, copy, dst);
      !next.aborted ==> Balanced(next, listing, n + 1)
  {
    var next := Record(at, listing[n], env, copy, dst);
    if !next.aborted {
      var o := next.report.outcomes[n];
      assert next.report.outcomes == at.report.outcomes + [o];
      OneMoreBalances(at.report, next.report, o, listing, n);
    }
  }

  lemma OneMoreBalances(r: ArtifactReport, next: ArtifactReport, o: Relocation, listing: seq<Artifact>, n: nat)
    requires n < |listing| && BalancedReport(r, listing, n) && o.id == listing[n].id
    requires next.outcomes == r.outcomes + [o] && next.scanned == r.scanned + 1
    requires next.relocated == r.relocated + (if o.Relocated? then 1 else 0)
    requires next.guardRejected == r.guardRejected + (if o.GuardRejected? then 1 else 0)
    requires next.failed == r.failed + (if o.Failed? then 1 else 0)
    ensures BalancedReport(next, listing, n + 1)
  {
    CountSnoc(r.outcomes, o);
  }

  /** Every row considered has exactly one outcome: relocated, rejected by the guard, or failed. */
  lemma {:induction false} EveryRowHasOneOutcome(copy: RunCopy, dst: Fs, rows: Rows, listing: seq<Artifact>,
                                                 envs: seq<Env>, n: nat)
    requires n <= |listing| == |envs|
    requires !After(copy, dst, rows, listing, envs, n).aborted
    ensures Balanced(After(copy, dst, rows, listing, envs, n), listing, n)
  {
    if n > 0 {
      var at := After(copy, dst, rows, listing, envs, n - 1);
      EveryRowHasOneOutcome(copy, dst, rows, listing, envs, n - 1);
      var (result, dst') := copy(at.dst, listing[n - 1].location, envs[n - 1].weather);
      var next := AfterStep(copy, dst, rows, listing, envs, n - 1);
      assert next == Record(at, listing[n - 1], envs[n - 1], result, dst');
      RecordBalances(at, listing, n - 1, envs[n - 1], result, dst');
    }
  }

  /** The two tables agree on this row. */
  predicate SameRow(a: Rows, b: Rows, id: string) {
    (id in a <==> id in b) && (id in a ==> a[id] == b[id])
  }

  /** `CopyIsProven` in a run. */
  lemma RunCopyProves(hash: Hash, copy: RunCopy, src: Fs, shared: bool, dst: Fs, location: string, w: Weather)
    returns (back: Bytes)
    requires Copies(copy, hash, src, shared)
    ensures var (r, dst') := copy(dst, location, w);
      r.Ok? ==>
        && r.value.src == location
        && ExpectedAddress(location) == Some(r.value.address)
        && ExpectedAddress(r.value.dst) == Some(r.value.address)
        && GetFs(hash, dst', r.value.dst, false) == Ok(back)
        && hash(back) == r.value.address
  {
    var sent;
    sent, back := CopyIsProven(hash, if shared then dst else src, dst, location, w);
  }

  /** A row that a step changed is the listed one, rebound to the copy's destination. */
  lemma RecordChanges(at: Progress, art: Artifact, env: Env, copy: Result<RelocatedObject, BlobError>, dst: Fs,
                      id: string)
    requires !SameRow(env.rows, Record(at, art, env, copy, dst).rows, id)
    ensures var next := Record(at, art, env, copy, dst);
      && copy.Ok? && id == art.id && id in env.rows && env.rows[id] == art.location
      && id in next.rows && next.rows[id] == copy.value.dst && next.dst == dst
      && next.report.outcomes == at.report.outcomes + [Relocated(id, art.location, copy.value.dst)]
  {
  }

  /** A rewrite of one row from `before` to `after`, with the proof that came before it. */
  ghost predicate ProvenMove(hash: Hash, dst: Fs, before: string, after: string) {
    && ExpectedAddress(before).Some? && ExpectedAddress(after) == ExpectedAddress(before)
    && GetFs(hash, dst, after, false).Ok?
    && hash(GetFs(hash, dst, after, false).value) == ExpectedAddress(before).value
  }

  lemma CopyIsProvenMove(hash: Hash, copy: RunCopy, src: Fs, shared: bool, dst: Fs, location: string, w: Weather)
    requires Copies(copy, hash, src, shared)
    ensures var (r, dst') := copy(dst, location, w);
      r.Ok? ==> ProvenMove(hash, dst', location, r.value.dst)
  {
    var back := RunCopyProves(hash, copy, src, shared, dst, location, w);
  }

  /**
   Under any interference, the outcome of step `i` is a failure exactly when its copy
   failed, with that error; otherwise the row ends at the copy's destination exactly
   when it was still listed there, and the outcome says which.
   */
  lemma RowEndsWhereItShould(copy: RunCopy, dst: Fs, rows: Rows, listing: seq<Artifact>, envs: seq<Env>, i: nat)
    requires i < |listing| == |envs| && !After(copy, dst, rows, listing, envs, i + 1).aborted
    ensures var at, next := After(copy, dst, rows, listing, envs, i), After(copy, dst, rows, listing, envs, i + 1);
      var (art, found) := (listing[i], envs[i].rows);
      var (result, dst') := copy(at.dst, art.location, envs[i].weather);
      var still := art.id in found && found[art.id] == art.location;
      && !at.aborted && next.dst == dst' && |next.report.outcomes| == |at.report.outcomes| + 1
      && next.report.outcomes[..|at.report.outcomes|] == at.report.outcomes
      && next.report.outcomes[|at.report.outcomes|] ==
         (if result.Err? then Failed(art.id, result.error)
          else if still then Relocated(art.id, art.location, result.value.dst)
          else GuardRejected(art.id))
      && (result.Ok? && still ==> art.id in next.rows && next.rows[art.id] == result.value.dst)
      && (result.Err? || !still ==> next.rows == found)
  {
    var at, art, env := After(copy, dst, rows, listing, envs, i), listing[i], envs[i];
    var (result, dst') := copy(at.dst, art.location, env.weather);
    var next := AfterStep(copy, dst, rows, listing, envs, i);
    assert next == Record(at, art, env, result, dst');
    RecordOutcome(at, art, env, result, dst');
  }

  /** A run ends early exactly when the row of a proven copy meets a store error, and its rows stay as found. */
  lemma AbortsIff(copy: RunCopy, dst: Fs, rows: Rows, listing: seq<Artifact>, envs: seq<Env>, i: nat)
    requires i < |listing| == |envs| && !After(copy, dst, rows, listing, envs, i).aborted
    ensures var at, next := After(copy, dst, rows, listing, envs, i), After(copy, dst, rows, listing, envs, i + 1);
      && (next.aborted <==> copy(at.dst, listing[i].location, envs[i].weather).0.Ok? && envs[i].storeFails)
      && (next.aborted ==> next.rows == envs[i].rows && next.report.outcomes == at.report.outcomes)
  {
    var at, art, env := After(copy, dst, rows, listing, envs, i), listing[i], envs[i];
    var (result, dst') := copy(at.dst, art.location, env.weather);
    var next := AfterStep(copy, dst, rows, listing, envs, i);
    assert next == Record(at, art, env, result, dst');
  }

  lemma RecordOutcome(at: Progress, art: Artifact, env: Env, copy: Result<RelocatedObject, BlobError>, dst: Fs)
    requires !Record(at, art, env, copy, dst).aborted
    ensures var next := Record(at, art, env, copy, dst);
      var still := art.id in env.rows && env.rows[art.id] == art.location;
      && next.dst == dst
      && next.report.outcomes == at.report.outcomes +
         [if copy.Err? then Failed(art.id, copy.error)
          else if still then Relocated(art.id, art.location, copy.value.dst)
          else GuardRejected(art.id)]
      && (copy.Ok? && still ==> art.id in next.rows && next.rows[art.id] == copy.value.dst)
      && (copy.Err? || !still ==> next.rows == env.rows)
  {
  }

  /**
   Under any interference, step `i` changes a row only if it is the listed one and
   still holds the listed location; the new location then serves, at that very
   moment, bytes of the same content address, and the outcome says so.
   */
  lemma RowsChangeOnlyWhenProven(hash: Hash, copy: RunCopy, src: Fs, shared: bool, dst: Fs, rows: Rows,
                                 listing: seq<Artifact>, envs: seq<Env>, i: nat, id: string)
    requires Copies(copy, hash, src, shared) && i < |listing| == |envs|
    requires !After(copy, dst, rows, listing, envs, i).aborted
    ensures var found, next := envs[i].rows, After(copy, dst, rows, listing, envs, i + 1);
      !SameRow(found, next.rows, id) ==>
        && id == listing[i].id && id in found && found[id] == listing[i].location && id in next.rows
        && ProvenMove(hash, next.dst, found[id], next.rows[id])
        && next.report.outcomes == After(copy, dst, rows, listing, envs, i).report.outcomes
             + [Relocated(id, found[id], next.rows[id])]
  {
    var at, art, env := After(copy, dst, rows, listing, envs, i), listing[i], envs[i];
    var (result, dst') := copy(at.dst, art.location, env.weather);
    var next := AfterStep(copy, dst, rows, listing, envs, i);
    assert next == Record(at, art, env, result, dst');
    CopyIsProvenMove(hash, copy, src, shared, at.dst, art.location, env.weather);
    if !SameRow(env.rows, next.rows, id) {
      RecordChanges(at, art, env, result, dst', id);
    }
  }

  /** Row by row, the same content address (or the same lack of one). */
  ghost predicate SameAddresses(a: Rows, b: Rows) {
    a.Keys == b.Keys && forall id :: id in a ==> ExpectedAddress(a[id]) == ExpectedAddress(b[id])
  }

  lemma RebindKeepsAddresses(rows: Rows, id: string, expected: string, location: string)
    requires ExpectedAddress(expected) == ExpectedAddress(location)
    ensures SameAddresses(rows, Rebind(rows, id, expected, location).1)
    ensures forall i :: i in rows && i != id ==> Rebind(rows, id, expected, location).1[i] == rows[i]
  {
  }

  /** One iteration changes at most its own row, and never that row's address. */
  lemma OwnWritesKeepAddresses(hash: Hash, copy: RunCopy, src: Fs, shared: bool, at: Progress, art: Artifact, env: Env)
    requires Copies(copy, hash, src, shared) && !at.aborted
    ensures var next := Advance(copy, at, art, env);
      && SameAddresses(env.rows, next.rows)
      && forall id :: id in env.rows && id != art.id ==> next.rows[id] == env.rows[id]
  {
    var (result, dst) := copy(at.dst, art.location, env.weather);
    if result.Ok? {
      var back := RunCopyProves(hash, copy, src, shared, at.dst, art.location, env.weather);
      RebindKeepsAddresses(env.rows, art.id, art.location, result.value.dst);
    }
    RecordRows(at, art, env, result, dst);
  }

  lemma RecordRows(at: Progress, art: Artifact, env: Env, copy: Result<RelocatedObject, BlobError>, dst: Fs)
    ensures Record(at, art, env, copy, dst).rows ==
      (if copy.Ok? && !env.storeFails then Rebind(env.rows, art.id, art.location, copy.value.dst).1 else env.rows)
  {
  }

  /** The others only move rows between locations of the same address. */
  ghost predicate OthersKeepAddresses(copy: RunCopy, dst: Fs, rows: Rows, listing: seq<Artifact>, envs: seq<Env>)
    requires |listing| == |envs|
  {
    forall i :: 0 <= i < |envs| ==> SameAddresses(After(copy, dst, rows, listing, envs, i).rows, envs[i].rows)
  }

  /** Among address-keeping actors, a run leaves every row with the address it started with. */
  lemma {:induction false} RunKeepsAddresses(hash: Hash, copy: RunCopy, src: Fs, shared: bool, dst: Fs,
                                             rows: Rows, listing: seq<Artifact>, envs: seq<Env>, n: nat)
    requires Copies(copy, hash, src, shared) && n <= |listing| == |envs|
    requires OthersKeepAddresses(copy, dst, rows, listing, envs)
    ensures SameAddresses(rows, After(copy, dst, rows, listing, envs, n).rows)
  {
    if n > 0 {
      var at := After(copy, dst, rows, listing, envs, n - 1);
      RunKeepsAddresses(hash, copy, src, shared, dst, rows, listing, envs, n - 1);
      AdvanceKeepsAddresses(hash, copy, src, shared, at, listing[n - 1], envs[n - 1], rows);
    }
  }

  lemma AdvanceKeepsAddresses(hash: Hash, copy: RunCopy, src: Fs, shared: bool, at: Progress, art: Artifact, env: Env,
                             rows: Rows)
    requires Copies(copy, hash, src, shared) && SameAddresses(rows, at.rows) && SameAddresses(at.rows, env.rows)
    ensures SameAddresses(rows, Advance(copy, at, art, env).rows)
  {
    if !at.aborted {
      var next := Advance(copy, at, art, env).rows;
      OwnWritesKeepAddresses(hash, copy, src, shared, at, art, env);
      SameAddressesTrans(rows, at.rows, env.rows);
      SameAddressesTrans(rows, env.rows, next);
    }
  }

  lemma SameAddressesTrans(a: Rows, b: Rows, c: Rows)
    requires SameAddresses(a, b) && SameAddresses(b, c)
    ensures SameAddresses(a, c)
  {
  }

  // ---- Bytes before rows --------------------------------------------------------------

  datatype StoreError = EmptyBytes | Blob(error: BlobError) | RowAfterCas(blake3: string, location: string)

  /** Put the bytes, then register the row; `rowFails` is the second write's error. */
  method StoreArtifact(table: ArtifactTable, blobs: FsBlobStore, id: string, bytes: Bytes, putFails: bool,
                       rowFails: bool)
    returns (r: Result<string, StoreError>)
    modifies table, blobs`files
    ensures blobs.State() ==
      if bytes == [] then old(blobs.State()) else PutFs(blobs.hash, old(blobs.State()), bytes, putFails).1
    ensures r.Ok? <==> bytes != [] && !putFails && !rowFails
    ensures r.Ok? ==>
      r.value == LocationForHash(blobs.root, blobs.hash(bytes)) && table.rows == old(table.rows)[id := r.value]
    ensures r.Err? ==> table.rows == old(table.rows)
    ensures r.Err? && r.error.RowAfterCas? ==>
      r.error.location == LocationForHash(blobs.root, blobs.hash(bytes)) && r.error.blake3 == blobs.hash(bytes)
  {
    if bytes == [] {
      return Err(EmptyBytes);
    }
    var put := blobs.Put(bytes, putFails);
    if put.Err? {
      return Err(Blob(put.error));
    }
    if rowFails {
      return Err(RowAfterCas(put.value.blake3, put.value.location));
    }
    table.Register(id, put.value.location);
    return Ok(put.value.location);
  }

  /** Every row's location can be read. */
  ghost predicate NoDanglingRows(hash: Hash, fs: Fs, rows: Rows) {
    forall id :: id in rows ==> GetFs(hash, fs, rows[id], false).Ok?
  }

  lemma GrowingKeepsReads(hash: Hash, fs: Fs, later: Fs, location: string)
    requires Grown(fs, later) && GetFs(hash, fs, location, false).Ok?
    ensures GetFs(hash, later, location, false) == GetFs(hash, fs, location, false)
  {
    ConfinedLater(fs, later, location);
  }

  lemma ConfinedLater(fs: Fs, later: Fs, location: string)
    requires Grown(fs, later) && Confine(fs, location).Ok?
    ensures Confine(later, location) == Confine(fs, location)
  {
  }

  /**
   The order matters: whichever of its two writes fails, and whatever the root, the
   rows a store_artifact found stay readable. With a good root the row it registers is
   readable too, exactly when the place of its bytes was free or held the same content.
   */
  lemma StoringKeepsRowsReadable(hash: Hash, fs: Fs, rows: Rows, id: string, bytes: Bytes, putFails: bool)
    requires NoDanglingRows(hash, fs, rows)
    ensures var (put, fs') := PutFs(hash, fs, bytes, putFails);
      var path := ObjectPath(hash, fs, bytes);
      && NoDanglingRows(hash, fs', rows)
      && (put.Ok? && WellRooted(fs.root) ==>
            (NoDanglingRows(hash, fs', rows[id := put.value.location]) <==>
               path !in fs.files || hash(fs.files[path]) == hash(bytes)))
  {
    var (put, fs') := PutFs(hash, fs, bytes, putFails);
    PutGrows(hash, fs, bytes, putFails);
    RowsStayReadable(hash, fs, rows, fs');
    if put.Ok? && WellRooted(fs.root) {
      PutThenGet(hash, fs, bytes);
      NewRowReadable(hash, fs', rows, id, put.value.location);
    }
  }

  lemma RowsStayReadable(hash: Hash, fs: Fs, rows: Rows, later: Fs)
    requires NoDanglingRows(hash, fs, rows) && Grown(fs, later)
    ensures NoDanglingRows(hash, later, rows)
  {
    forall i | i in rows ensures GetFs(hash, later, rows[i], false).Ok? {
      GrowingKeepsReads(hash, fs, later, rows[i]);
    }
  }

  lemma NewRowReadable(hash: Hash, fs: Fs, rows: Rows, id: string, location: string)
    requires NoDanglingRows(hash, fs, rows)
    ensures NoDanglingRows(hash, fs, rows[id := location]) <==> GetFs(hash, fs, location, false).Ok?
  {
    assert rows[id := location][id] == location;
  }
}
