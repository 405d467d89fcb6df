/**
 Readers of the store while writers run (`get` beside `put`): what a read at an
 object's location can meet in any reachable state of the installs. The writers
 work in the directory the configured root leads to, the readers go by the root
 as configured.
 */
module CasReads {
  import opened Wrappers
  import opened CasAddress
  import opened Paths
  import CasInstall
  import BlobStore

  /** The text of the directory that the configured root leads to. */
  function Dir(cwd: Path, root: string): string { TextOf(Resolve(cwd, root)) }

  /** The store as a reader sees it: every file with the data written so far. */
  function Seen(cwd: Path, root: string, s: CasInstall.Store): BlobStore.Fs {
    var paths := set p | p in s.files :: Components(p);
    BlobStore.Fs(cwd, root, map q | q in paths && TextOf(q) in s.files :: s.files[TextOf(q)].data)
  }

  function ReadObject(hash: Hash, cwd: Path, root: string, s: CasInstall.Store, h: string)
    : Result<Bytes, BlobStore.BlobError>
    requires IsAddress(h)
  {
    BlobStore.GetFs(hash, Seen(cwd, root, s), LocationForHash(root, h), false)
  }

  /** The object's path text leads to its path, and back. */
  lemma ObjectText(cwd: Path, root: string, h: string)
    requires IsPath(cwd) && IsAddress(h)
    ensures TextOf(BlobStore.AddressPath(cwd, root, h)) == PathForHash(Dir(cwd, root), h)
    ensures Components(PathForHash(Dir(cwd, root), h)) == BlobStore.AddressPath(cwd, root, h)
  {
    var dir := Resolve(cwd, root);
    ResolveIsPath(cwd, root);
    BlobStore.ObjectsLieBelowRoot(BlobStore.Fs(cwd, root, map[]), h);
    BlobStore.AddressParts(h);
    TextOfAppended(dir, h[..2]);
    TextOfAppended(dir + [h[..2]], h[2..4]);
    TextOfAppended(dir + [h[..2]] + [h[2..4]], h);
    assert dir + [h[..2]] + [h[2..4]] + [h] == BlobStore.AddressPath(cwd, root, h);
    TextLeadsBack(BlobStore.AddressPath(cwd, root, h));
  }

  lemma TextOfAppended(p: Path, name: string)
    ensures TextOf(p + [name]) == Join(TextOf(p), name)
  {
    assert (p + [name])[..|p|] == p;
  }

  lemma ObjectIsSeen(cwd: Path, root: string, s: CasInstall.Store, h: string)
    requires IsPath(cwd) && IsAddress(h)
    ensures var text, path := PathForHash(Dir(cwd, root), h), BlobStore.AddressPath(cwd, root, h);
      var files := Seen(cwd, root, s).files;
      && (path in files <==> text in s.files)
      && (path in files ==> files[path] == s.files[text].data)
  {
    ObjectText(cwd, root, h);
  }

  /**
   In every reachable state a read at an object's location finds nothing or bytes of
   that hash: no interleaving of writers, kill or power loss makes it an integrity
   error or shows a part of an object.
   */
  lemma ReadsFindWholeObjects(hash: Hash, cwd: Path, root: string, run: seq<CasInstall.Action>, h: string)
    requires IsPath(cwd) && IsAddress(h) && BlobStore.WellRooted(root)
    requires CasInstall.Legal(hash, Dir(cwd, root), CasInstall.Store(map[], map[]), run)
    requires CasInstall.FreshTags(CasInstall.Store(map[], map[]), run)
    ensures var s := CasInstall.Exec(hash, Dir(cwd, root), CasInstall.Store(map[], map[]), run);
      var r := ReadObject(hash, cwd, root, s, h);
      && (r == Err(BlobStore.NotFound) || (r.Ok? && hash(r.value) == h))
      && (r.Ok? <==> PathForHash(Dir(cwd, root), h) in s.files)
  {
    var s := CasInstall.Exec(hash, Dir(cwd, root), CasInstall.Store(map[], map[]), run);
    CasInstall.VisibleObjectsAreComplete(hash, Dir(cwd, root), run, h);
    ObjectIsSeen(cwd, root, s, h);
    BlobStore.GetOfObject(hash, Seen(cwd, root, s), h);
  }

  /** A put that returned success is readable at its location in every later state of every run. */
  lemma SuccessIsReadable(hash: Hash, cwd: Path, root: string, s: CasInstall.Store, run: seq<CasInstall.Action>,
                          id: nat)
    requires IsPath(cwd) && BlobStore.WellRooted(root)
    requires CasInstall.Inv(hash, Dir(cwd, root), s) && CasInstall.Legal(hash, Dir(cwd, root), s, run)
    requires CasInstall.FreshTags(s, run)
    requires id in s.writers && s.writers[id].phase.ReturnedOk?
    ensures var h := hash(s.writers[id].bytes);
      var r := ReadObject(hash, cwd, root, CasInstall.Exec(hash, Dir(cwd, root), s, run), h);
      r.Ok? && hash(r.value) == h
  {
    var s' := CasInstall.Exec(hash, Dir(cwd, root), s, run);
    var h := hash(s.writers[id].bytes);
    CasInstall.SuccessIsPermanent(hash, Dir(cwd, root), s, run, id);
    ObjectIsSeen(cwd, root, s', h);
    BlobStore.GetOfObject(hash, Seen(cwd, root, s'), h);
  }
}
