/**
 The file store as its callers see it: `FsBlobStore::put`, `get` and `exists`,
 one call at a time. There are no symbolic links and the root directory exists;
 `fails` is the I/O error of a call.
 */
module BlobStore {
  import opened Wrappers
  import opened CasAddress
  import opened Paths

  datatype BlobError = Io | NotFound | Integrity | Invalid

  datatype BlobPut = BlobPut(blake3: string, location: string)

  /** Working directory, root as configured, and the files by canonical path. */
  datatype Fs = Fs(cwd: Path, root: string, files: map<Path, Bytes>)

  function RootPath(fs: Fs): Path { Resolve(fs.cwd, fs.root) }

  function FileName(path: Path): string { if path == [] then "" else path[|path| - 1] }

  function RawPath(location: string): string {
    if FILE_SCHEME <= location then location[|FILE_SCHEME|..] else location
  }

  /** A location confined to the root: the canonical path of a file below it. */
  function Confine(fs: Fs, location: string): (r: Result<Path, BlobError>)
    ensures r.Ok? ==> r.value in fs.files && RootPath(fs) <= r.value
  {
    var raw := RawPath(location);
    if ".." in Components(raw) then Err(Invalid)
    else if fs.root == "" then Err(NotFound)
    else
      var path := Resolve(RootPath(fs), raw);
      if path !in fs.files || NamesDirectory(raw) then Err(NotFound)
      else if !(RootPath(fs) <= path) then Err(Invalid)
      else Ok(path)
  }

  /** Reading the file a location was confined to, with the integrity check. */
  function ReadFile(hash: Hash, files: map<Path, Bytes>, confined: Result<Path, BlobError>, fails: bool)
    : Result<Bytes, BlobError>
    requires confined.Ok? ==> confined.value in files
  {
    match confined
    case Err(e) => Err(e)
    case Ok(path) =>
      if fails then Err(Io)
      else if IsAddress(FileName(path)) && hash(files[path]) != FileName(path) then Err(Integrity)
      else Ok(files[path])
  }

  function GetFs(hash: Hash, fs: Fs, location: string, fails: bool): Result<Bytes, BlobError> {
    ReadFile(hash, fs.files, Confine(fs, location), fails)
  }

  /** A read that succeeds does so without the I/O error as well. */
  lemma CalmRead(hash: Hash, fs: Fs, location: string, fails: bool)
    ensures GetFs(hash, fs, location, fails).Ok? ==>
      GetFs(hash, fs, location, false) == GetFs(hash, fs, location, fails)
  {
  }

  /** Where the object of an address lies, as the file system resolves its path text. */
  function AddressPath(cwd: Path, root: string, h: string): Path
    requires |h| >= 4
  {
    Resolve(cwd, PathForHash(root, h))
  }

  function ObjectPath(hash: Hash, fs: Fs, bytes: Bytes): Path { AddressPath(fs.cwd, fs.root, hash(bytes)) }

  function PutFs(hash: Hash, fs: Fs, bytes: Bytes, fails: bool): (Result<BlobPut, BlobError>, Fs) {
    var path := ObjectPath(hash, fs, bytes);
    if fails then (Err(Io), fs)
    else
      (Ok(BlobPut(hash(bytes), LocationForHash(fs.root, hash(bytes)))),
       if path in fs.files then fs else fs.(files := fs.files[path := bytes]))
  }

  function ExistsFs(fs: Fs, location: string): bool { Confine(fs, location).Ok? }

  class FsBlobStore {
    const hash: Hash
    const cwd: Path
    const root: string
    var files: map<Path, Bytes>

    ghost function State(): Fs
      reads this
    {
      Fs(cwd, root, files)
    }

    constructor (hash: Hash, cwd: Path, root: string, files: map<Path, Bytes>)
      ensures this.hash == hash && State() == Fs(cwd, root, files)
    {
      this.hash := hash;
      this.cwd := cwd;
      this.root := root;
      this.files := files;
    }

    method Put(bytes: Bytes, fails: bool) returns (r: Result<BlobPut, BlobError>)
      modifies this`files
      ensures (r, State()) == PutFs(hash, old(State()), bytes, fails)
    {
      var h := hash(bytes);
      var path := Resolve(cwd, PathForHash(root, h));
      if fails {
        return Err(Io);
      }
      if path !in files {
        files := files[path := bytes];
      }
      return Ok(BlobPut(h, LocationForHash(root, h)));
    }

    method Get(location: string, fails: bool) returns (r: Result<Bytes, BlobError>)
      ensures r == GetFs(hash, State(), location, fails)
    {
      var confined := Confine(Fs(cwd, root, files), location);
      if confined.Err? {
        return Err(confined.error);
      }
      if fails {
        return Err(Io);
      }
      var bytes := files[confined.value];
      var name := FileName(confined.value);
      if IsAddress(name) && hash(bytes) != name {
        return Err(Integrity);
      }
      return Ok(bytes);
    }

    method Exists(location: string) returns (r: bool)
      ensures r == ExistsFs(State(), location)
    {
      var confined := Confine(Fs(cwd, root, files), location);
      r := confined.Ok?;
    }
  }

  // ---- What a call does when it cannot do its work -----------------------------------------

  /** An I/O error is reported and changes nothing; a read reports it only of a file it may read. */
  lemma FailedCallsChangeNothing(hash: Hash, fs: Fs, bytes: Bytes, location: string)
    ensures PutFs(hash, fs, bytes, true) == (Err(Io), fs)
    ensures GetFs(hash, fs, location, true) ==
      if Confine(fs, location).Ok? then Err(Io) else Err(Confine(fs, location).error)
  {
  }

  /** A file whose name is no address is served as it is, whatever its bytes hash to. */
  lemma PlainFileIsServed(hash: Hash, fs: Fs, location: string)
    requires Confine(fs, location).Ok? && !IsAddress(FileName(Confine(fs, location).value))
    ensures GetFs(hash, fs, location, false) == Ok(fs.files[Confine(fs, location).value])
  {
  }

  /** An absolute path text without dots that leads to a file outside the root is refused, one inside is found. */
  lemma AbsoluteLocation(fs: Fs, path: Path)
    requires IsPath(path) && path != [] && path in fs.files && fs.root != ""
    ensures Confine(fs, FILE_SCHEME + TextOf(path)) == if RootPath(fs) <= path then Ok(path) else Err(Invalid)
    ensures ExistsFs(fs, FILE_SCHEME + TextOf(path)) <==> RootPath(fs) <= path
  {
    var text := TextOf(path);
    assert RawPath(FILE_SCHEME + text) == text;
    TextLeadsBack(path);
    assert ".." !in path by {
      assert forall i :: 0 <= i < |path| ==> IsName(path[i]);
    }
    JoinAddsName(TextOf(path[..|path| - 1]), path[|path| - 1]);
    WalkPlain([], path);
    assert [] + path == path;
  }

  /** A location without the scheme is the same location. */
  lemma BareLocation(fs: Fs, path: string)
    requires !(FILE_SCHEME <= path)
    ensures Confine(fs, path) == Confine(fs, FILE_SCHEME + path)
  {
    assert RawPath(FILE_SCHEME + path) == path;
  }

  /** The temporary file lies beside its object. */
  lemma TmpLiesBesideObject(root: string, h: string, tag: string)
    requires IsAddress(h) && IsSegment(tag)
    ensures Components(TmpPath(root, h, tag)) == Components(root) + [h[..2], h[2..4], h + ".tmp." + tag]
  {
    AddressParts(h);
    var name := h + ".tmp." + tag;
    assert name[0] == h[0] && |name| > 64;
    JoinAddsName(root, h[..2]);
    JoinAddsName(Join(root, h[..2]), h[2..4]);
    JoinAddsName(Shard(root, h), name);
  }

  // ---- Where an object lies and where its location leads ------------------------------

  /**
   The roots for which the location a put returns finds the object again: no `..`,
   and either absolute or, like `.`, naming the working directory itself.
   */
  predicate WellRooted(root: string) {
    root != "" && ".." !in Components(root) && (IsAbsolute(root) || Components(root) == [])
  }

  function Shards(h: string): Path
    requires |h| >= 4
  {
    [h[..2], h[2..4], h]
  }

  lemma AddressParts(h: string)
    requires IsAddress(h)
    ensures IsName(h[..2]) && IsName(h[2..4]) && IsName(h)
  {
    assert IsHex(h[0]) && IsHex(h[1]) && IsHex(h[2]) && IsHex(h[3]);
    assert h[..2][0] == h[0] && h[2..4][0] == h[2];
    assert h[..2] == [h[0], h[1]] && h[2..4] == [h[2], h[3]];
  }

  /** The object path text is the root's components and three more. */
  lemma PathText(root: string, h: string)
    requires IsAddress(h)
    ensures Components(PathForHash(root, h)) == Components(root) + Shards(h)
    ensures IsAbsolute(PathForHash(root, h)) <==> IsAbsolute(root)
    ensures !NamesDirectory(PathForHash(root, h))
  {
    AddressParts(h);
    JoinAddsName(root, h[..2]);
    JoinAddsName(Join(root, h[..2]), h[2..4]);
    JoinAddsName(Shard(root, h), h);
  }

  /** Whatever the root is, objects lie three levels below the directory it names. */
  lemma ObjectsLieBelowRoot(fs: Fs, h: string)
    requires IsAddress(h)
    ensures AddressPath(fs.cwd, fs.root, h) == RootPath(fs) + Shards(h)
    ensures FileName(AddressPath(fs.cwd, fs.root, h)) == h
  {
    PathText(fs.root, h);
    AddressParts(h);
    WalkConcat(if IsAbsolute(fs.root) then [] else fs.cwd, Components(fs.root), Shards(h));
    WalkPlain(RootPath(fs), Shards(h));
  }

  /** Where the location of an address is looked for: a relative root is applied twice. */
  function ReadPath(fs: Fs, h: string): Path
    requires |h| >= 4
  {
    RootPath(fs) + (if IsAbsolute(fs.root) then [] else Components(fs.root)) + Shards(h)
  }

  lemma ConfinedToReadPath(fs: Fs, h: string)
    requires IsAddress(h)
    ensures Confine(fs, LocationForHash(fs.root, h)) ==
      if ".." in Components(fs.root) then Err(Invalid)
      else if fs.root == "" || ReadPath(fs, h) !in fs.files then Err(NotFound)
      else Ok(ReadPath(fs, h))
    ensures WellRooted(fs.root) ==> ReadPath(fs, h) == AddressPath(fs.cwd, fs.root, h)
  {
    var raw := PathForHash(fs.root, h);
    assert RawPath(LocationForHash(fs.root, h)) == raw;
    PathText(fs.root, h);
    AddressParts(h);
    ObjectsLieBelowRoot(fs, h);
    assert ".." in Components(raw) <==> ".." in Components(fs.root);
    if ".." !in Components(fs.root) {
      WalkPlain(if IsAbsolute(fs.root) then [] else fs.cwd, Components(fs.root));
      WalkPlain(if IsAbsolute(raw) then [] else RootPath(fs), Components(raw));
      assert Resolve(RootPath(fs), raw) == ReadPath(fs, h);
    }
  }

  /**
   Reading the location of an object: its file, if it hashes to its name. Whatever
   the disk holds, any location at all that leads to a content-addressed file yields
   only bytes that hash to the file's name.
   */
  lemma GetOfObject(hash: Hash, fs: Fs, h: string)
    requires WellRooted(fs.root) && IsAddress(h)
    ensures var path := AddressPath(fs.cwd, fs.root, h);
      GetFs(hash, fs, LocationForHash(fs.root, h), false) ==
        (if path !in fs.files then Err(NotFound)
         else if hash(fs.files[path]) != h then Err(Integrity)
         else Ok(fs.files[path]))
    ensures forall location, fails :: GetFs(hash, fs, location, fails).Ok? ==>
      var path := Confine(fs, location).value;
      && RootPath(fs) <= path
      && (IsAddress(FileName(path)) ==> hash(GetFs(hash, fs, location, fails).value) == FileName(path))
  {
    ConfinedToReadPath(fs, h);
    ObjectsLieBelowRoot(fs, h);
    forall location, fails | GetFs(hash, fs, location, fails).Ok? {
      ReadIsChecked(hash, fs, location, fails);
    }
  }

  lemma ReadIsChecked(hash: Hash, fs: Fs, location: string, fails: bool)
    requires GetFs(hash, fs, location, fails).Ok?
    ensures var path := Confine(fs, location).value;
      && RootPath(fs) <= path
      && (IsAddress(FileName(path)) ==> hash(GetFs(hash, fs, location, fails).value) == FileName(path))
  {
  }

  /**
   `exists` is true of an object's location exactly when a read of it would not say
   "not found".
   */
  lemma ExistsIffFound(hash: Hash, fs: Fs, h: string)
    requires WellRooted(fs.root) && IsAddress(h)
    ensures var location := LocationForHash(fs.root, h);
      && (ExistsFs(fs, location) <==> GetFs(hash, fs, location, false) != Err(NotFound))
      && (ExistsFs(fs, location) <==> AddressPath(fs.cwd, fs.root, h) in fs.files)
  {
    ConfinedToReadPath(fs, h);
  }

  /** After a put its location exists, in every store that has only gained files since. */
  lemma PutExistsForEver(hash: Hash, fs: Fs, bytes: Bytes, later: Fs)
    requires WellRooted(fs.root) && later.cwd == fs.cwd && later.root == fs.root
    requires forall p :: p in PutFs(hash, fs, bytes, false).1.files ==> p in later.files
    ensures ExistsFs(later, PutFs(hash, fs, bytes, false).0.value.location)
  {
    assert ObjectPath(hash, fs, bytes) in PutFs(hash, fs, bytes, false).1.files;
    ExistsIffFound(hash, later, hash(bytes));
  }

  /**
   Put, then get at the returned location: the bytes come back unless the path
   already held something that does not hash to it.
   */
  lemma PutThenGet(hash: Hash, fs: Fs, bytes: Bytes)
    requires WellRooted(fs.root)
    ensures var (put, fs') := PutFs(hash, fs, bytes, false);
      var path := ObjectPath(hash, fs, bytes);
      GetFs(hash, fs', put.value.location, false) ==
        (if path !in fs.files then Ok(bytes)
         else if hash(fs.files[path]) == hash(bytes) then Ok(fs.files[path])
         else Err(Integrity))
  {
    GetOfObject(hash, PutFs(hash, fs, bytes, false).1, hash(bytes));
  }

  /** The store after putting each of `puts` in turn. */
  function AfterPuts(hash: Hash, fs: Fs, puts: seq<Bytes>): Fs {
    if puts == [] then fs else PutFs(hash, AfterPuts(hash, fs, puts[..|puts| - 1]), puts[|puts| - 1], false).1
  }

  /** The place of each content's object, as a function value. */
  type Places = Bytes -> Path

  function PlacesOf(hash: Hash, cwd: Path, root: string): (place: Places)
    ensures forall b :: place(b) == AddressPath(cwd, root, hash(b))
  {
    (b: Bytes) => AddressPath(cwd, root, hash(b))
  }

  /** The file at `p` is the object of one of the puts. */
  ghost predicate IsPut(hash: Hash, place: Places, files: map<Path, Bytes>, puts: seq<Bytes>, p: Path)
    requires p in files
  {
    exists b :: b in puts && p == place(b) && hash(files[p]) == hash(b)
  }

  /** Every file is the object of some bytes that were put, and those are all there. */
  ghost predicate HoldsPuts(hash: Hash, place: Places, files: map<Path, Bytes>, puts: seq<Bytes>) {
    && (forall b :: b in puts ==> place(b) in files)
    && (forall p :: p in files ==> IsPut(hash, place, files, puts, p))
  }

  /** The files after one more put. */
  function WithPut(place: Places, files: map<Path, Bytes>, bytes: Bytes): map<Path, Bytes> {
    if place(bytes) in files then files else files[place(bytes) := bytes]
  }

  function WithPuts(place: Places, files: map<Path, Bytes>, puts: seq<Bytes>): map<Path, Bytes> {
    if puts == [] then files else WithPut(place, WithPuts(place, files, puts[..|puts| - 1]), puts[|puts| - 1])
  }

  lemma PutAdds(hash: Hash, fs: Fs, bytes: Bytes)
    ensures PutFs(hash, fs, bytes, false).1 == fs.(files := WithPut(PlacesOf(hash, fs.cwd, fs.root), fs.files, bytes))
  {
  }

  lemma {:induction false} AfterPutsFiles(hash: Hash, fs: Fs, puts: seq<Bytes>)
    ensures AfterPuts(hash, fs, puts) == fs.(files := WithPuts(PlacesOf(hash, fs.cwd, fs.root), fs.files, puts))
  {
    if puts != [] {
      AfterPutsFiles(hash, fs, puts[..|puts| - 1]);
      PutAdds(hash, AfterPuts(hash, fs, puts[..|puts| - 1]), puts[|puts| - 1]);
    }
  }

  lemma {:induction false} PutsHold(hash: Hash, place: Places, puts: seq<Bytes>)
    ensures HoldsPuts(hash, place, WithPuts(place, map[], puts), puts)
  {
    if puts != [] {
      var head, last := puts[..|puts| - 1], puts[|puts| - 1];
      PutsHold(hash, place, head);
      OnePutHolds(hash, place, WithPuts(place, map[], head), head, last);
      assert puts == head + [last];
    }
  }

  lemma OnePutHolds(hash: Hash, place: Places, files: map<Path, Bytes>, puts: seq<Bytes>, last: Bytes)
    requires HoldsPuts(hash, place, files, puts)
    ensures HoldsPuts(hash, place, WithPut(place, files, last), puts + [last])
  {
    var files' := WithPut(place, files, last);
    forall p | p in files' ensures IsPut(hash, place, files', puts + [last], p) {
      if p in files {
        PutStays(hash, place, files, files', puts, last, p);
      } else {
        assert last in puts + [last] && files'[p] == last;
      }
    }
  }

  lemma PutStays(hash: Hash, place: Places, files: map<Path, Bytes>, files': map<Path, Bytes>, puts: seq<Bytes>,
                 last: Bytes, p: Path)
    requires p in files && p in files' && files'[p] == files[p] && IsPut(hash, place, files, puts, p)
    ensures IsPut(hash, place, files', puts + [last], p)
  {
    var b :| b in puts && p == place(b) && hash(files[p]) == hash(b);
    assert b in puts + [last];
  }

  lemma ObjectPathsDiffer(hash: Hash, fs: Fs, a: Bytes, b: Bytes)
    requires ObjectPath(hash, fs, a) == ObjectPath(hash, fs, b)
    ensures hash(a) == hash(b)
  {
    ObjectsLieBelowRoot(fs, hash(a));
    ObjectsLieBelowRoot(fs, hash(b));
  }

  /**
   In every store made of puts alone, the locations returned are readable, each with
   bytes of the hash that was put, if and only if the root has no `..` and is absolute
   or names the working directory itself: the components of a relative root are
   applied twice on the way back, and a `..` is refused.
   */
  lemma PutsReadableIffWellRooted(hash: Hash, fs: Fs, puts: seq<Bytes>, bytes: Bytes)
    requires fs.files == map[] && bytes in puts
    ensures var read := GetFs(hash, AfterPuts(hash, fs, puts), LocationForHash(fs.root, hash(bytes)), false);
      && (read.Ok? <==> WellRooted(fs.root))
      && (read.Ok? ==> hash(read.value) == hash(bytes))
  {
    var end := AfterPuts(hash, fs, puts);
    var place := PlacesOf(hash, fs.cwd, fs.root);
    AfterPutsFiles(hash, fs, puts);
    PutsHold(hash, place, puts);
    if WellRooted(fs.root) {
      GetOfObject(hash, end, hash(bytes));
      assert place(bytes) in end.files && IsPut(hash, place, end.files, puts, place(bytes));
      var b :| b in puts && place(bytes) == place(b) && hash(end.files[place(bytes)]) == hash(b);
      ObjectPathsDiffer(hash, fs, bytes, b);
    } else {
      UnreadableWhenBadlyRooted(hash, end, puts, hash(bytes));
    }
  }

  lemma UnreadableWhenBadlyRooted(hash: Hash, fs: Fs, puts: seq<Bytes>, h: string)
    requires HoldsPuts(hash, PlacesOf(hash, fs.cwd, fs.root), fs.files, puts) && !WellRooted(fs.root) && IsAddress(h)
    ensures Confine(fs, LocationForHash(fs.root, h)).Err?
  {
    ConfinedToReadPath(fs, h);
    if ".." !in Components(fs.root) && fs.root != "" {
      var place := PlacesOf(hash, fs.cwd, fs.root);
      forall b ensures place(b) != ReadPath(fs, h) {
        ReadPathIsNoObject(fs, h, hash(b));
      }
      OnlyPutsAreThere(hash, place, fs.files, puts, ReadPath(fs, h));
    }
  }

  lemma OnlyPutsAreThere(hash: Hash, place: Places, files: map<Path, Bytes>, puts: seq<Bytes>, p: Path)
    requires HoldsPuts(hash, place, files, puts) && forall b :: place(b) != p
    ensures p !in files
  {
  }

  /** Applying the components of a relative root twice leads to no object: the path is too long. */
  lemma ReadPathIsNoObject(fs: Fs, h: string, k: string)
    requires IsAddress(h) && IsAddress(k) && fs.root != "" && ".." !in Components(fs.root) && !WellRooted(fs.root)
    ensures ReadPath(fs, h) != AddressPath(fs.cwd, fs.root, k)
  {
    ObjectsLieBelowRoot(fs, k);
    assert |ReadPath(fs, h)| == |RootPath(fs)| + |Components(fs.root)| + 3;
  }

  /** The root used when none is configured. */
  const DEFAULT_ROOT := ".nomiso-blobs"

  lemma DefaultRootIsBad()
    ensures !WellRooted(DEFAULT_ROOT) && WellRooted(".")
  {
    Splitting.SplitNone(DEFAULT_ROOT, '/');
    Splitting.SplitNone(".", '/');
    assert Components(DEFAULT_ROOT) == [DEFAULT_ROOT];
  }

  /** Under that root nothing that was put can be read; under `.` everything can. */
  lemma DefaultRootIsUnreadable(hash: Hash, fs: Fs, puts: seq<Bytes>, bytes: Bytes)
    requires fs.files == map[] && bytes in puts
    ensures var read := GetFs(hash, AfterPuts(hash, fs, puts), LocationForHash(fs.root, hash(bytes)), false);
      (fs.root == DEFAULT_ROOT ==> read.Err?) && (fs.root == "." ==> read.Ok?)
  {
    DefaultRootIsBad();
    PutsReadableIffWellRooted(hash, fs, puts, bytes);
  }
}
