/**
 Verified copies between stores (`relocate_object`, `relocate_many`). `Weather` is
 what one copy meets: which of its three calls fail, and what other processes
 write over the destination before the copy is read back.
 */
module Relocate {
  import opened Wrappers
  import opened CasAddress
  import opened Paths
  import opened BlobStore

  datatype Weather = Weather(srcFails: bool, putFails: bool, backFails: bool, overlay: map<Path, Bytes>)

  const CALM := Weather(false, false, false, map[])

  datatype RelocatedObject = RelocatedObject(address: string, src: string, dst: string, size: nat)

  function Overwrite(fs: Fs, overlay: map<Path, Bytes>): Fs { fs.(files := fs.files + overlay) }

  datatype Proven = Proven(address: string, bytes: Bytes)

  /** The source half of a copy: bytes that hash to the address the location names. */
  function ReadProven(hash: Hash, src: Fs, location: string, fails: bool): Result<Proven, BlobError> {
    Checked(hash, ExpectedAddress(location), GetFs(hash, src, location, fails))
  }

  function Checked(hash: Hash, address: Option<string>, read: Result<Bytes, BlobError>): Result<Proven, BlobError> {
    if address.None? then Err(Invalid)
    else if read.Err? then Err(read.error)
    else if hash(read.value) != address.value then Err(Integrity)
    else Ok(Proven(address.value, read.value))
  }

  /** The verdict on a put that succeeded, given what was read back. */
  function Verdict(hash: Hash, location: string, p: Proven, put: BlobPut, back: Result<Bytes, BlobError>)
    : Result<RelocatedObject, BlobError>
  {
    if back.Err? then Err(back.error)
    else if hash(back.value) != p.address then Err(Integrity)
    else Ok(RelocatedObject(p.address, location, put.location, |p.bytes|))
  }

  /** The destination half: put, whatever others overwrite, read back and hash again. */
  function Land(hash: Hash, dst: Fs, location: string, p: Proven, w: Weather)
    : (Result<RelocatedObject, BlobError>, Fs)
  {
    var (put, stored) := PutFs(hash, dst, p.bytes, w.putFails);
    if put.Err? then (Err(put.error), stored)
    else if put.value.blake3 != p.address then (Err(Integrity), stored)
    else
      var found := Overwrite(stored, w.overlay);
      (Verdict(hash, location, p, put.value, GetFs(hash, found, put.value.location, w.backFails)), found)
  }

  /** One copy: its result and what the destination holds afterwards. */
  function RelocateFs(hash: Hash, src: Fs, dst: Fs, location: string, w: Weather)
    : (Result<RelocatedObject, BlobError>, Fs)
  {
    match ReadProven(hash, src, location, w.srcFails)
    case Err(e) => (Err(e), dst)
    case Ok(p) => Land(hash, dst, location, p, w)
  }

  method RelocateObject(src: FsBlobStore, dst: FsBlobStore, location: string, w: Weather)
    returns (r: Result<RelocatedObject, BlobError>)
    requires src.hash == dst.hash
    modifies dst`files
    ensures (r, dst.State()) == RelocateFs(dst.hash, old(src.State()), old(dst.State()), location, w)
  {
    var expected := ExpectedAddress(location);
    if expected.None? {
      return Err(Invalid);
    }
    var read := src.Get(location, w.srcFails);
    if read.Err? {
      return Err(read.error);
    }
    if src.hash(read.value) != expected.value {
      return Err(Integrity);
    }
    var put := dst.Put(read.value, w.putFails);
    if put.Err? {
      return Err(put.error);
    }
    if put.value.blake3 != expected.value {
      return Err(Integrity);
    }
    dst.files := dst.files + w.overlay;
    var back := dst.Get(put.value.location, w.backFails);
    if back.Err? {
      return Err(back.error);
    }
    if dst.hash(back.value) != expected.value {
      return Err(Integrity);
    }
    return Ok(RelocatedObject(expected.value, location, put.value.location, |read.value|));
  }

  lemma ReadIsProven(hash: Hash, src: Fs, location: string, fails: bool)
    requires ReadProven(hash, src, location, fails).Ok?
    ensures var p := ReadProven(hash, src, location, fails).value;
      && ExpectedAddress(location) == Some(p.address)
      && GetFs(hash, src, location, false) == Ok(p.bytes)
      && hash(p.bytes) == p.address
  {
    CalmRead(hash, src, location, fails);
    CheckedIsProven(hash, ExpectedAddress(location), GetFs(hash, src, location, fails));
  }

  lemma CheckedIsProven(hash: Hash, address: Option<string>, read: Result<Bytes, BlobError>)
    requires Checked(hash, address, read).Ok?
    ensures var p := Checked(hash, address, read).value;
      address == Some(p.address) && read == Ok(p.bytes) && hash(p.bytes) == p.address
  {
  }

  /** The read-back bytes `back` of a landed copy hash to its address. */
  lemma LandIsProven(hash: Hash, dst: Fs, location: string, p: Proven, w: Weather) returns (back: Bytes)
    ensures var (r, dst') := Land(hash, dst, location, p, w);
      r.Ok? ==>
        && r.value == RelocatedObject(p.address, location, LocationForHash(dst.root, p.address), |p.bytes|)
        && GetFs(hash, dst', r.value.dst, false) == Ok(back)
        && hash(back) == p.address
  {
    back := [];
    var (r, dst') := Land(hash, dst, location, p, w);
    if r.Ok? {
      CalmRead(hash, dst', r.value.dst, w.backFails);
      back := GetFs(hash, dst', r.value.dst, w.backFails).value;
    }
  }

  /**
   A copy counts only when the destination serves bytes of the very same address; a
   location that names no address is refused before anything is read or written.
   */
  lemma CopyIsProven(hash: Hash, src: Fs, dst: Fs, location: string, w: Weather) returns (sent: Bytes, back: Bytes)
    ensures var (r, dst') := RelocateFs(hash, src, dst, location, w);
      && (r.Ok? ==>
            && r.value.src == location
            && ExpectedAddress(location) == Some(r.value.address)
            && ExpectedAddress(r.value.dst) == Some(r.value.address)
            && GetFs(hash, src, location, false) == Ok(sent) && r.value.size == |sent|
            && GetFs(hash, dst', r.value.dst, false) == Ok(back)
            && hash(sent) == hash(back) == r.value.address)
      && (ExpectedAddress(location).None? ==> r == Err(Invalid) && dst' == dst)
  {
    sent, back := [], [];
    if RelocateFs(hash, src, dst, location, w).0.Ok? {
      var p := ReadProven(hash, src, location, w.srcFails).value;
      ReadIsProven(hash, src, location, w.srcFails);
      sent := p.bytes;
      back := LandIsProven(hash, dst, location, p, w);
      AddressOfFileLocation(dst.root, p.address);
    }
  }

  /** When the source half succeeds, and which error it gives otherwise. */
  lemma ReadProvenIff(hash: Hash, src: Fs, location: string, fails: bool)
    ensures var r, address, read := ReadProven(hash, src, location, fails), ExpectedAddress(location),
                                    GetFs(hash, src, location, fails);
      && (r.Ok? <==> address.Some? && read.Ok? && hash(read.value) == address.value)
      && (r.Ok? ==> r.value == Proven(address.value, read.value))
      && (address.None? ==> r == Err(Invalid))
      && (address.Some? && read.Err? ==> r == Err(read.error))
      && (address.Some? && read.Ok? && hash(read.value) != address.value ==> r == Err(Integrity))
  {
  }

  /**
   A calm copy into a good root succeeds exactly when the source half does and the
   place of the object is free or holds the same content; it then lands at that
   object's location, and otherwise says what was wrong.
   */
  lemma CalmCopySucceedsIff(hash: Hash, src: Fs, dst: Fs, location: string)
    requires WellRooted(dst.root)
    ensures var (r, dst') := RelocateFs(hash, src, dst, location, CALM);
      var read := ReadProven(hash, src, location, false);
      && (read.Err? ==> r == Err(read.error) && dst' == dst)
      && (read.Ok? ==>
            var bytes, h := read.value.bytes, hash(read.value.bytes);
            var place := ObjectPath(hash, dst, bytes);
            && read.value.address == h && place in dst'.files
            && r == if place in dst.files && hash(dst.files[place]) != h then Err(Integrity)
                    else Ok(RelocatedObject(h, location, LocationForHash(dst.root, h), |bytes|)))
  {
    var read := ReadProven(hash, src, location, false);
    if read.Ok? {
      ReadIsProven(hash, src, location, false);
      CalmLanding(hash, dst, location, read.value);
    }
  }

  lemma CalmLanding(hash: Hash, dst: Fs, location: string, p: Proven)
    requires WellRooted(dst.root) && hash(p.bytes) == p.address
    ensures var (r, dst') := Land(hash, dst, location, p, CALM);
      var place := ObjectPath(hash, dst, p.bytes);
      && place in dst'.files
      && r == if place in dst.files && hash(dst.files[place]) != p.address then Err(Integrity)
              else Ok(RelocatedObject(p.address, location, LocationForHash(dst.root, p.address), |p.bytes|))
  {
    var stored := PutFs(hash, dst, p.bytes, false).1;
    OverwriteNothing(stored);
    PutThenGet(hash, dst, p.bytes);
  }

  /** An intact object under a good root is copied to any good root with a free place. */
  lemma IntactObjectIsCopied(hash: Hash, src: Fs, dst: Fs, h: string)
    requires WellRooted(src.root) && WellRooted(dst.root) && IsAddress(h)
    requires AddressPath(src.cwd, src.root, h) in src.files && hash(src.files[AddressPath(src.cwd, src.root, h)]) == h
    requires AddressPath(dst.cwd, dst.root, h) !in dst.files
    ensures RelocateFs(hash, src, dst, LocationForHash(src.root, h), CALM).0
      == Ok(RelocatedObject(h, LocationForHash(src.root, h), LocationForHash(dst.root, h),
                            |src.files[AddressPath(src.cwd, src.root, h)]|))
  {
    GetOfObject(hash, src, h);
    AddressOfFileLocation(src.root, h);
    ReadProvenIff(hash, src, LocationForHash(src.root, h), false);
    CalmCopySucceedsIff(hash, src, dst, LocationForHash(src.root, h));
  }

  /** A copy whose put fails leaves the destination as it was; one whose read-back fails has stored its object. */
  lemma FailedCallsAreReported(hash: Hash, dst: Fs, location: string, p: Proven, w: Weather)
    ensures w.putFails ==> Land(hash, dst, location, p, w) == (Err(Io), dst)
    ensures !w.putFails && hash(p.bytes) == p.address ==>
      ObjectPath(hash, dst, p.bytes) in Land(hash, dst, location, p, w).1.files
  {
  }

  // ---- Batches -----------------------------------------------------------------

  /** A copy as a function value, so that a batch is reasoned about copy by copy. */
  type CopyFn = (Fs, Fs, string, Weather) -> (Result<RelocatedObject, BlobError>, Fs)

  /** `copy` is `RelocateFs` under `hash`. */
  ghost predicate Implements(copy: CopyFn, hash: Hash) {
    forall src: Fs, dst: Fs, location: string, w: Weather {:trigger RelocateFs(hash, src, dst, location, w)} ::
      copy(src, dst, location, w) == RelocateFs(hash, src, dst, location, w)
  }

  function Copier(hash: Hash): (copy: CopyFn)
    ensures Implements(copy, hash)
  {
    (src, dst, location, w) => RelocateFs(hash, src, dst, location, w)
  }

  method CopyOne(ghost copy: CopyFn, src: FsBlobStore, dst: FsBlobStore, location: string, w: Weather)
    returns (r: Result<RelocatedObject, BlobError>)
    requires src.hash == dst.hash && Implements(copy, dst.hash)
    modifies dst`files
    ensures (r, dst.State()) == copy(old(src.State()), old(dst.State()), location, w)
  {
    r := RelocateObject(src, dst, location, w);
  }

  /** `CopyIsProven` for the function value. */
  lemma CopyProves(hash: Hash, copy: CopyFn, src: Fs, dst: Fs, location: string, w: Weather)
    returns (sent: Bytes, back: Bytes)
    requires Implements(copy, hash) && copy(src, dst, location, w).0.Ok?
    ensures var (r, dst') := copy(src, dst, location, w);
      && r.value.src == location
      && ExpectedAddress(location) == Some(r.value.address)
      && ExpectedAddress(r.value.dst) == Some(r.value.address)
      && GetFs(hash, src, location, false) == Ok(sent) && r.value.size == |sent|
      && GetFs(hash, dst', r.value.dst, false) == Ok(back)
      && hash(sent) == hash(back) == r.value.address
  {
    assert copy(src, dst, location, w) == RelocateFs(hash, src, dst, location, w);
    sent, back := CopyIsProven(hash, src, dst, location, w);
  }

  lemma CopyNamesItsSource(hash: Hash, copy: CopyFn, src: Fs, dst: Fs, location: string, w: Weather)
    requires Implements(copy, hash) && copy(src, dst, location, w).0.Ok?
    ensures copy(src, dst, location, w).0.value.src == location
  {
    var sent, back := CopyProves(hash, copy, src, dst, location, w);
  }

  datatype Report = Report(scanned: nat, copied: nat, failed: nat,
                           failures: seq<(string, BlobError)>, relocated: seq<RelocatedObject>)

  const EMPTY_REPORT := Report(0, 0, 0, [], [])

  function Tally(r: Report, location: string, outcome: Result<RelocatedObject, BlobError>): Report {
    match outcome
    case Ok(obj) => r.(scanned := r.scanned + 1, copied := r.copied + 1, relocated := r.relocated + [obj])
    case Err(e) => r.(scanned := r.scanned + 1, failed := r.failed + 1, failures := r.failures + [(location, e)])
  }

  /** The destination before copy `n`; `shared` when both stores are one. */
  function DstBefore(copy: CopyFn, src: Fs, dst: Fs, shared: bool, locations: seq<string>, ws: seq<Weather>, n: nat): Fs
    requires n <= |locations| == |ws|
    decreases n, 0
  {
    if n == 0 then dst else OutcomeAt(copy, src, dst, shared, locations, ws, n - 1).1
  }

  /** Copy `n` of the batch. */
  function OutcomeAt(copy: CopyFn, src: Fs, dst: Fs, shared: bool, locations: seq<string>, ws: seq<Weather>, n: nat)
    : (Result<RelocatedObject, BlobError>, Fs)
    requires n < |locations| == |ws|
    decreases n, 1
  {
    var before := DstBefore(copy, src, dst, shared, locations, ws, n);
    copy(if shared then before else src, before, locations[n], ws[n])
  }

  function ReportUpTo(copy: CopyFn, src: Fs, dst: Fs, shared: bool, locations: seq<string>, ws: seq<Weather>, n: nat)
    : Report
    requires n <= |locations| == |ws|
  {
    if n == 0 then EMPTY_REPORT
    else
      Tally(ReportUpTo(copy, src, dst, shared, locations, ws, n - 1), locations[n - 1],
            OutcomeAt(copy, src, dst, shared, locations, ws, n - 1).0)
  }

  /** Every input copied in turn; the two stores may be one. */
  method RelocateMany(src: FsBlobStore, dst: FsBlobStore, locations: seq<string>, ws: seq<Weather>)
    returns (report: Report)
    requires src.hash == dst.hash && |locations| == |ws|
    modifies dst`files
    ensures var copy := Copier(dst.hash);
      && report == ReportUpTo(copy, old(src.State()), old(dst.State()), src == dst, locations, ws, |locations|)
      && dst.State() == DstBefore(copy, old(src.State()), old(dst.State()), src == dst, locations, ws, |locations|)
    ensures src != dst ==> src.State() == old(src.State())
  {
    report := CopyAll(Copier(dst.hash), src, dst, locations, ws);
  }

  /** What one more copy adds. */
  lemma NextCopy(copy: CopyFn, src: Fs, dst: Fs, shared: bool, locations: seq<string>, ws: seq<Weather>, n: nat)
    requires n < |locations| == |ws|
    ensures var before := DstBefore(copy, src, dst, shared, locations, ws, n);
      var (outcome, after) := copy(if shared then before else src, before, locations[n], ws[n]);
      && DstBefore(copy, src, dst, shared, locations, ws, n + 1) == after
      && OutcomeAt(copy, src, dst, shared, locations, ws, n) == (outcome, after)
      && ReportUpTo(copy, src, dst, shared, locations, ws, n + 1)
         == Tally(ReportUpTo(copy, src, dst, shared, locations, ws, n), locations[n], outcome)
  {
  }

  /** The loop, with its copies as a function value. */
  method CopyAll(ghost copy: CopyFn, src: FsBlobStore, dst: FsBlobStore, locations: seq<string>, ws: seq<Weather>)
    returns (report: Report)
    requires src.hash == dst.hash && Implements(copy, dst.hash) && |locations| == |ws|
    modifies dst`files
    ensures report == ReportUpTo(copy, old(src.State()), old(dst.State()), src == dst, locations, ws, |locations|)
    ensures dst.State() == DstBefore(copy, old(src.State()), old(dst.State()), src == dst, locations, ws, |locations|)
    ensures src != dst ==> src.State() == old(src.State())
  {
    report := EMPTY_REPORT;
    ghost var src0, dst0, shared := src.State(), dst.State(), src == dst;
    for i := 0 to |locations|
      invariant report == ReportUpTo(copy, src0, dst0, shared, locations, ws, i)
      invariant dst.State() == DstBefore(copy, src0, dst0, shared, locations, ws, i)
      invariant src != dst ==> src.State() == src0
    {
      NextCopy(copy, src0, dst0, shared, locations, ws, i);
      report := CopyNext(copy, src, dst, report, locations[i], ws[i]);
    }
  }

  /** One turn of the loop: copy and count. */
  method CopyNext(ghost copy: CopyFn, src: FsBlobStore, dst: FsBlobStore, report: Report, location: string, w: Weather)
    returns (counted: Report)
    requires src.hash == dst.hash && Implements(copy, dst.hash)
    modifies dst`files
    ensures var (outcome, after) := copy(old(src.State()), old(dst.State()), location, w);
      dst.State() == after && counted == Tally(report, location, outcome)
    ensures src != dst ==> src.State() == old(src.State())
  {
    counted := report.(scanned := report.scanned + 1);
    var r := CopyOne(copy, src, dst, location, w);
    match r {
      case Ok(obj) =>
        counted := counted.(copied := counted.copied + 1, relocated := counted.relocated + [obj]);
      case Err(e) =>
        counted := counted.(failed := counted.failed + 1, failures := counted.failures + [(location, e)]);
    }
  }

  /** Of the first `n` inputs, those whose outcome is a copy (or not), in input order. */
  function Pick(locations: seq<string>, outcomes: seq<Result<RelocatedObject, BlobError>>, n: nat, ok: bool)
    : seq<string>
    requires n <= |locations| && n <= |outcomes|
  {
    if n == 0 then []
    else Pick(locations, outcomes, n - 1, ok) + (if outcomes[n - 1].Ok? == ok then [locations[n - 1]] else [])
  }

  lemma {:induction false} PickIgnoresLater(
    locations: seq<string>, outcomes: seq<Result<RelocatedObject, BlobError>>,
    more: seq<Result<RelocatedObject, BlobError>>, n: nat, ok: bool)
    requires n <= |locations| && n <= |outcomes|
    ensures Pick(locations, outcomes + more, n, ok) == Pick(locations, outcomes, n, ok)
  {
    if n > 0 {
      PickIgnoresLater(locations, outcomes, more, n - 1, ok);
    }
  }

  function Sources(objects: seq<RelocatedObject>): seq<string> {
    seq(|objects|, i requires 0 <= i < |objects| => objects[i].src)
  }

  function Names(failures: seq<(string, BlobError)>): seq<string> {
    seq(|failures|, i requires 0 <= i < |failures| => failures[i].0)
  }

  function Outcomes(copy: CopyFn, src: Fs, dst: Fs, shared: bool, locations: seq<string>, ws: seq<Weather>, n: nat)
    : (r: seq<Result<RelocatedObject, BlobError>>)
    requires n <= |locations| == |ws|
    ensures |r| == n
  {
    if n == 0 then []
    else Outcomes(copy, src, dst, shared, locations, ws, n - 1)
         + [OutcomeAt(copy, src, dst, shared, locations, ws, n - 1).0]
  }

  /**
   Conservation: every input is copied or failed, exactly one of the two, and the
   two lists are the inputs split by outcome, each in input order.
   */
  lemma {:induction false} BatchAccountsForEveryInput(
    hash: Hash, copy: CopyFn, src: Fs, dst: Fs, shared: bool, locations: seq<string>, ws: seq<Weather>, n: nat)
    requires Implements(copy, hash) && n <= |locations| == |ws|
    ensures Accounted(ReportUpTo(copy, src, dst, shared, locations, ws, n), locations,
                      Outcomes(copy, src, dst, shared, locations, ws, n), n)
  {
    if n > 0 {
      BatchAccountsForEveryInput(hash, copy, src, dst, shared, locations, ws, n - 1);
      var o := OutcomeAt(copy, src, dst, shared, locations, ws, n - 1);
      if o.0.Ok? {
        var before := DstBefore(copy, src, dst, shared, locations, ws, n - 1);
        CopyNamesItsSource(hash, copy, if shared then before else src, before, locations[n - 1], ws[n - 1]);
      }
      TallyAccounts(ReportUpTo(copy, src, dst, shared, locations, ws, n - 1), locations,
                    Outcomes(copy, src, dst, shared, locations, ws, n - 1), n - 1, o.0);
    }
  }

  /** A report of the first `n` inputs, split by their outcomes. */
  ghost predicate Accounted(r: Report, locations: seq<string>, outcomes: seq<Result<RelocatedObject, BlobError>>,
                            n: nat) {
    && n <= |locations| && n <= |outcomes|
    && r.scanned == n == r.copied + r.failed
    && r.copied == |r.relocated| && r.failed == |r.failures|
    && Sources(r.relocated) == Pick(locations, outcomes, n, true)
    && Names(r.failures) == Pick(locations, outcomes, n, false)
    && r.relocated == Copied(outcomes[..n]) && r.failures == Failures(locations[..n], outcomes[..n])
  }

  /** The objects of the successful outcomes, in order. */
  function Copied(outcomes: seq<Result<RelocatedObject, BlobError>>): seq<RelocatedObject> {
    if outcomes == [] then []
    else
      var last := outcomes[|outcomes| - 1];
      Copied(outcomes[..|outcomes| - 1]) + if last.Ok? then [last.value] else []
  }

  /** The inputs that failed, each with its own error, in order. */
  function Failures(locations: seq<string>, outcomes: seq<Result<RelocatedObject, BlobError>>): seq<(string, BlobError)>
    requires |locations| == |outcomes|
  {
    if outcomes == [] then []
    else
      var n := |outcomes| - 1;
      Failures(locations[..n], outcomes[..n]) + if outcomes[n].Err? then [(locations[n], outcomes[n].error)] else []
  }

  lemma TallyAccounts(r: Report, locations: seq<string>, outcomes: seq<Result<RelocatedObject, BlobError>>, n: nat,
                      o: Result<RelocatedObject, BlobError>)
    requires Accounted(r, locations, outcomes, n) && n == |outcomes| < |locations|
    requires o.Ok? ==> o.value.src == locations[n]
    ensures Accounted(Tally(r, locations[n], o), locations, outcomes + [o], n + 1)
  {
    assert (outcomes + [o])[..n + 1] == outcomes + [o] && outcomes[..n] == outcomes;
    assert (outcomes + [o])[..n] == outcomes && locations[..n + 1][..n] == locations[..n];
    PickIgnoresLater(locations, outcomes, [o], n, true);
    PickIgnoresLater(locations, outcomes, [o], n, false);
    match o
    case Ok(obj) => assert Sources(r.relocated + [obj]) == Sources(r.relocated) + [locations[n]];
    case Err(e) => assert Names(r.failures + [(locations[n], e)]) == Names(r.failures) + [locations[n]];
  }

  // ---- Running a batch again ------------------------------------------------------

  /** The same store with possibly more files. */
  ghost predicate Grown(a: Fs, b: Fs) {
    && a.cwd == b.cwd && a.root == b.root
    && forall p :: p in a.files ==> p in b.files && b.files[p] == a.files[p]
  }

  /** Grown by objects of the store alone. */
  ghost predicate GrownByObjects(a: Fs, b: Fs) {
    && Grown(a, b)
    && forall p :: p in b.files && p !in a.files ==> exists k :: IsAddress(k) && p == AddressPath(a.cwd, a.root, k)
  }

  lemma OverwriteNothing(fs: Fs)
    ensures Overwrite(fs, map[]) == fs
  {
    assert fs.files + map[] == fs.files;
  }

  lemma CopyGrows(hash: Hash, src: Fs, dst: Fs, location: string, w: Weather)
    requires w.overlay == map[]
    ensures GrownByObjects(dst, RelocateFs(hash, src, dst, location, w).1)
  {
    var read := ReadProven(hash, src, location, w.srcFails);
    if read.Ok? {
      LandGrows(hash, dst, location, read.value, w);
    }
  }

  lemma LandGrows(hash: Hash, dst: Fs, location: string, p: Proven, w: Weather)
    requires w.overlay == map[]
    ensures GrownByObjects(dst, Land(hash, dst, location, p, w).1)
  {
    var stored := PutFs(hash, dst, p.bytes, w.putFails).1;
    OverwriteNothing(stored);
    PutGrows(hash, dst, p.bytes, w.putFails);
  }

  lemma PutGrows(hash: Hash, fs: Fs, bytes: Bytes, fails: bool)
    ensures GrownByObjects(fs, PutFs(hash, fs, bytes, fails).1)
  {
    assert ObjectPath(hash, fs, bytes) == AddressPath(fs.cwd, fs.root, hash(bytes));
  }

  /**
   A copy that succeeded, repeated calmly in any grown store, has the same outcome and
   writes nothing; so has any calm copy when the growth was by objects. No root is
   excluded, not even one under which nothing can be read back.
   */
  lemma CopyAgain(hash: Hash, src: Fs, dst: Fs, location: string, w: Weather, later: Fs)
    requires w.overlay == map[]
    ensures var (r, dst') := RelocateFs(hash, src, dst, location, w);
      && (r.Ok? && Grown(dst', later) ==> RelocateFs(hash, src, later, location, CALM) == (r, later))
      && (w == CALM && GrownByObjects(dst', later) ==> RelocateFs(hash, src, later, location, CALM) == (r, later))
  {
    var read := ReadProven(hash, src, location, w.srcFails);
    if read.Ok? {
      assert ReadProven(hash, src, location, false) == read;
      LandAgain(hash, dst, location, read.value, w, later);
    }
  }

  lemma LandAgain(hash: Hash, dst: Fs, location: string, p: Proven, w: Weather, later: Fs)
    requires w.overlay == map[]
    ensures var (r, dst') := Land(hash, dst, location, p, w);
      && (r.Ok? && Grown(dst', later) ==> Land(hash, later, location, p, CALM) == (r, later))
      && (w == CALM && GrownByObjects(dst', later) ==> Land(hash, later, location, p, CALM) == (r, later))
  {
    var (put, stored) := PutFs(hash, dst, p.bytes, w.putFails);
    OverwriteNothing(stored);
    OverwriteNothing(later);
    if put.Ok? && Grown(stored, later) {
      PutAgain(hash, dst, p.bytes, later);
      ReadAgain(hash, stored, hash(p.bytes), later);
    }
  }

  /** Putting again what a grown store already holds is a no-op. */
  lemma PutAgain(hash: Hash, dst: Fs, bytes: Bytes, later: Fs)
    requires Grown(PutFs(hash, dst, bytes, false).1, later)
    ensures PutFs(hash, later, bytes, false) == (PutFs(hash, dst, bytes, false).0, later)
  {
    assert ObjectPath(hash, dst, bytes) in PutFs(hash, dst, bytes, false).1.files;
  }

  /** What was read stays; what was not found stays so as long as only objects were added. */
  lemma ReadAgain(hash: Hash, fs: Fs, h: string, later: Fs)
    requires IsAddress(h) && Grown(fs, later)
    ensures var location := LocationForHash(fs.root, h);
      && (GetFs(hash, fs, location, false).Ok? ==>
            GetFs(hash, later, location, false) == GetFs(hash, fs, location, false))
      && (GrownByObjects(fs, later) && AddressPath(fs.cwd, fs.root, h) in fs.files ==>
            GetFs(hash, later, location, false) == GetFs(hash, fs, location, false))
  {
    ConfinedToReadPath(fs, h);
    ConfinedToReadPath(later, h);
    if ReadPath(fs, h) in later.files && ReadPath(fs, h) !in fs.files && GrownByObjects(fs, later)
       && fs.root != "" && ".." !in Components(fs.root) && !WellRooted(fs.root) {
      NewFileIsObject(fs, later, ReadPath(fs, h));
      var k :| IsAddress(k) && ReadPath(fs, h) == AddressPath(fs.cwd, fs.root, k);
      ReadPathIsNoObject(fs, h, k);
    }
  }

  lemma NewFileIsObject(fs: Fs, later: Fs, p: Path)
    requires GrownByObjects(fs, later) && p in later.files && p !in fs.files
    ensures exists k :: IsAddress(k) && p == AddressPath(fs.cwd, fs.root, k)
  {
  }

  lemma CopyGrowsVia(hash: Hash, copy: CopyFn, src: Fs, dst: Fs, location: string, w: Weather)
    requires Implements(copy, hash) && w.overlay == map[]
    ensures GrownByObjects(dst, copy(src, dst, location, w).1)
  {
    CopyGrows(hash, src, dst, location, w);
  }

  lemma CopyAgainVia(hash: Hash, copy: CopyFn, src: Fs, dst: Fs, location: string, w: Weather, later: Fs)
    requires Implements(copy, hash) && w.overlay == map[]
    ensures var (r, dst') := copy(src, dst, location, w);
      && (r.Ok? && Grown(dst', later) ==> copy(src, later, location, CALM) == (r, later))
      && (w == CALM && GrownByObjects(dst', later) ==> copy(src, later, location, CALM) == (r, later))
  {
    assert copy(src, dst, location, w) == RelocateFs(hash, src, dst, location, w);
    assert copy(src, later, location, CALM) == RelocateFs(hash, src, later, location, CALM);
    CopyAgain(hash, src, dst, location, w, later);
  }

  lemma GrownTrans(a: Fs, b: Fs, c: Fs)
    requires GrownByObjects(a, b) && GrownByObjects(b, c)
    ensures GrownByObjects(a, c)
  {
    forall p | p in c.files && p !in a.files ensures exists k :: IsAddress(k) && p == AddressPath(a.cwd, a.root, k) {
      if p in b.files {
        NewFileIsObject(a, b, p);
      } else {
        NewFileIsObject(b, c, p);
      }
    }
  }

  lemma WeakTrans(a: Fs, b: Fs, c: Fs)
    requires Grown(a, b) && Grown(b, c)
    ensures Grown(a, c)
  {
  }

  lemma {:induction false} BatchGrows(hash: Hash, copy: CopyFn, src: Fs, dst: Fs, locations: seq<string>,
                                      ws: seq<Weather>, m: nat, n: nat)
    requires Implements(copy, hash) && m <= n <= |locations| == |ws|
    requires forall i :: 0 <= i < |ws| ==> ws[i].overlay == map[]
    ensures GrownByObjects(DstBefore(copy, src, dst, false, locations, ws, m),
                           DstBefore(copy, src, dst, false, locations, ws, n))
    decreases n - m
  {
    if m < n {
      var before := DstBefore(copy, src, dst, false, locations, ws, n - 1);
      BatchGrows(hash, copy, src, dst, locations, ws, m, n - 1);
      CopyGrowsVia(hash, copy, src, before, locations[n - 1], ws[n - 1]);
      NextCopy(copy, src, dst, false, locations, ws, n - 1);
      GrownTrans(DstBefore(copy, src, dst, false, locations, ws, m), before,
                 DstBefore(copy, src, dst, false, locations, ws, n));
    }
  }

  /**
   Idempotence: running a calm batch again over the stores it left has the same
   outcomes, so the same destinations, and writes nothing, under every root.
   */
  lemma {:induction false} RerunIsStable(hash: Hash, copy: CopyFn, src: Fs, dst: Fs, locations: seq<string>,
                                         ws: seq<Weather>, n: nat)
    requires Implements(copy, hash) && n <= |locations| == |ws|
    requires forall i :: 0 <= i < |ws| ==> ws[i] == CALM
    ensures var done := DstBefore(copy, src, dst, false, locations, ws, |locations|);
      && DstBefore(copy, src, done, false, locations, ws, n) == done
      && Outcomes(copy, src, done, false, locations, ws, n) == Outcomes(copy, src, dst, false, locations, ws, n)
  {
    if n > 0 {
      var done := DstBefore(copy, src, dst, false, locations, ws, |locations|);
      var before := DstBefore(copy, src, dst, false, locations, ws, n - 1);
      RerunIsStable(hash, copy, src, dst, locations, ws, n - 1);
      BatchGrows(hash, copy, src, dst, locations, ws, n, |locations|);
      NextCopy(copy, src, dst, false, locations, ws, n - 1);
      CopyAgainVia(hash, copy, src, before, locations[n - 1], ws[n - 1], done);
    }
  }

  /** After a run with I/O errors, a calm re-run still repeats each copy it made. */
  lemma RerunKeepsCopies(hash: Hash, copy: CopyFn, src: Fs, dst: Fs, locations: seq<string>, ws: seq<Weather>, n: nat,
                         later: Fs)
    requires Implements(copy, hash) && n < |locations| == |ws|
    requires forall i :: 0 <= i < |ws| ==> ws[i].overlay == map[]
    requires Grown(DstBefore(copy, src, dst, false, locations, ws, |locations|), later)
    ensures var outcome := OutcomeAt(copy, src, dst, false, locations, ws, n).0;
      outcome.Ok? ==> copy(src, later, locations[n], CALM) == (outcome, later)
  {
    var before := DstBefore(copy, src, dst, false, locations, ws, n);
    BatchGrows(hash, copy, src, dst, locations, ws, n + 1, |locations|);
    NextCopy(copy, src, dst, false, locations, ws, n);
    WeakTrans(DstBefore(copy, src, dst, false, locations, ws, n + 1),
              DstBefore(copy, src, dst, false, locations, ws, |locations|), later);
    CopyAgainVia(hash, copy, src, before, locations[n], ws[n], later);
  }
}
