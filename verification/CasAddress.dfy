/**
 Names of content-addressed objects: the shard layout of the file store, the keys
 of the S3 store, temporary names, and the address read back from a location.
 Hashing is abstract: any function to 64 lower-case hex digits.
 */
module CasAddress {
  import opened Wrappers
  import Splitting

  type Bytes = seq<Byte>

  predicate IsHex(c: char) {
    '0' <= c <= '9' || 'a' <= c <= 'f' || 'A' <= c <= 'F'
  }

  /** What a location may carry as its address: 64 hex digits in either case. */
  predicate IsAddress(s: string) {
    |s| == 64 && forall i :: 0 <= i < 64 ==> IsHex(s[i])
  }

  /** What hashing produces: 64 lower-case hex digits. */
  predicate IsDigest(s: string) {
    IsAddress(s) && forall i :: 0 <= i < 64 ==> !('A' <= s[i] <= 'F')
  }

  type Hash = h: Bytes -> string | forall b :: IsDigest(h(b))
    witness (b: Bytes) => seq(64, (i: nat) => '0')

  // ---- Paths and locations ---------------------------------------------------

  function Join(base: string, part: string): string {
    if base == "" then part
    else if base[|base| - 1] == '/' then base + part
    else base + "/" + part
  }

  predicate IsAbsolute(path: string) { path != "" && path[0] == '/' }

  function Shard(root: string, h: string): string
    requires |h| >= 4
  {
    Join(Join(root, h[..2]), h[2..4])
  }

  function PathForHash(root: string, h: string): string
    requires |h| >= 4
  {
    Join(Shard(root, h), h)
  }

  const FILE_SCHEME := "file://"

  function LocationForHash(root: string, h: string): string
    requires |h| >= 4
  {
    FILE_SCHEME + PathForHash(root, h)
  }

  /** `{hash}.tmp.{tag}` beside the object; the tag is process id and nonce. */
  function TmpPath(root: string, h: string, tag: string): string
    requires |h| >= 4
  {
    Join(Shard(root, h), h + ".tmp." + tag)
  }

  function KeyForHash(h: string): string
    requires |h| >= 4
  {
    "blobs/" + h[..2] + "/" + h[2..4] + "/" + h
  }

  function LocationForKey(bucket: string, key: string): string {
    "s3://" + bucket + "/" + key
  }

  function KeyFromLocation(bucket: string, location: string): Option<string> {
    var prefix := "s3://" + bucket + "/";
    if prefix <= location then Some(location[|prefix|..]) else None
  }

  // ---- The address a location carries ------------------------------------------

  predicate IsSeparator(c: char) { c == '/' || c == ':' }

  function DropTrailingSlashes(s: string): string {
    if s != "" && s[|s| - 1] == '/' then DropTrailingSlashes(s[..|s| - 1]) else s
  }

  /** What follows the last separator. */
  function Tail(s: string): string {
    if s == "" || IsSeparator(s[|s| - 1]) then "" else Tail(s[..|s| - 1]) + [s[|s| - 1]]
  }

  function ExpectedAddress(location: string): Option<string> {
    var tail := Tail(DropTrailingSlashes(location));
    if IsAddress(tail) then Some(tail) else None
  }

  predicate IsSegment(s: string) { forall c :: c in s ==> !IsSeparator(c) }

  lemma {:induction false} TailAfterSeparator(p: string, c: char, seg: string)
    requires IsSeparator(c) && IsSegment(seg)
    ensures Tail(p + [c] + seg) == seg
    decreases |seg|
  {
    var s := p + [c] + seg;
    if seg == "" {
      assert s[|s| - 1] == c;
    } else {
      var last := |seg| - 1;
      assert s[|s| - 1] == seg[last] && seg[last] in seg;
      assert s[..|s| - 1] == p + [c] + seg[..last];
      assert forall x :: x in seg[..last] ==> x in seg;
      TailAfterSeparator(p, c, seg[..last]);
      assert seg == seg[..last] + [seg[last]];
    }
  }

  /** Joining puts a separator before the last part unless the base is empty. */
  lemma JoinSplits(base: string, part: string) returns (p: string)
    requires base != ""
    ensures Join(base, part) == p + "/" + part
  {
    if base[|base| - 1] == '/' {
      p := base[..|base| - 1];
      assert base == p + "/";
    } else {
      p := base;
    }
  }

  lemma TailOfJoin(base: string, part: string)
    requires base != "" && IsSegment(part)
    ensures Tail(Join(base, part)) == part
  {
    var p := JoinSplits(base, part);
    TailAfterSeparator(p, '/', part);
  }

  lemma AddressIsSegment(h: string)
    requires IsAddress(h)
    ensures IsSegment(h) && h != "" && h[|h| - 1] != '/'
  {
  }

  lemma TailOfPath(root: string, h: string)
    requires IsAddress(h)
    ensures Shard(root, h) != "" && Tail(PathForHash(root, h)) == h
  {
    AddressIsSegment(h);
    TailOfJoin(Shard(root, h), h);
  }

  /** A prefix that ends a component does not change the last one. */
  lemma FileLocationTail(path: string, seg: string, base: string)
    requires base != "" && IsSegment(seg) && path == Join(base, seg)
    ensures Tail(FILE_SCHEME + path) == seg
  {
    var p := JoinSplits(base, seg);
    assert FILE_SCHEME + path == (FILE_SCHEME + p) + "/" + seg;
    TailAfterSeparator(FILE_SCHEME + p, '/', seg);
  }

  /** A file-store location carries exactly the address it was made for. */
  lemma AddressOfFileLocation(root: string, h: string)
    requires IsAddress(h)
    ensures ExpectedAddress(LocationForHash(root, h)) == Some(h)
  {
    AddressIsSegment(h);
    TailOfPath(root, h);
    FileLocationTail(PathForHash(root, h), h, Shard(root, h));
    var l := LocationForHash(root, h);
    var p := JoinSplits(Shard(root, h), h);
    assert l[|l| - 1] == h[63];
  }

  /** So does an S3 location, and its key is read back whole. */
  lemma AddressOfS3Location(bucket: string, h: string)
    requires IsAddress(h)
    ensures ExpectedAddress(LocationForKey(bucket, KeyForHash(h))) == Some(h)
    ensures KeyFromLocation(bucket, LocationForKey(bucket, KeyForHash(h))) == Some(KeyForHash(h))
  {
    AddressIsSegment(h);
    var l := LocationForKey(bucket, KeyForHash(h));
    var p := "s3://" + bucket + "/" + "blobs/" + h[..2] + "/" + h[2..4];
    assert l == p + "/" + h;
    TailAfterSeparator(p, '/', h);
    assert l[|l| - 1] == h[63];
    var prefix := "s3://" + bucket + "/";
    assert l == prefix + KeyForHash(h);
  }

  /** An address is what stands between the last separator and any closing slashes, and nothing else is one. */
  lemma AddressIsTheTail(p: string, c: char, h: string, slashes: nat)
    requires IsSeparator(c) && IsSegment(h) && h != ""
    ensures ExpectedAddress(p + [c] + h + seq(slashes, i => '/')) == if IsAddress(h) then Some(h) else None
  {
    var s := p + [c] + h;
    assert h[|h| - 1] in h && s[|s| - 1] == h[|h| - 1];
    SlashesDrop(s, slashes);
    TailAfterSeparator(p, c, h);
  }

  lemma {:induction false} SlashesDrop(s: string, n: nat)
    requires s != "" && s[|s| - 1] != '/'
    ensures DropTrailingSlashes(s + seq(n, i => '/')) == s
  {
    var t := s + seq(n, i => '/');
    if n == 0 {
      assert t == s;
    } else {
      assert t[..|t| - 1] == s + seq(n - 1, i => '/');
      SlashesDrop(s, n - 1);
    }
  }

  /** The key of an object: its two shards and its digest under `blobs`. */
  lemma KeyParts(h: string)
    requires IsAddress(h)
    ensures Splitting.Split(KeyForHash(h), '/') == ["blobs", h[..2], h[2..4], h]
  {
    var parts := ["blobs", h[..2], h[2..4], h];
    forall p | p in parts ensures '/' !in p {
      assert forall i :: 0 <= i < |h| ==> h[i] != '/';
    }
    KeyText("blobs", h[..2], h[2..4], h);
    assert "blobs/" == "blobs" + "/";
    Splitting.SplitOfJoin(parts, '/');
  }

  lemma KeyText(a: string, b: string, c: string, d: string)
    ensures Splitting.Join([a, b, c, d], "/") == a + "/" + b + "/" + c + "/" + d
  {
    var tail := c + "/" + d;
    assert [a, b, c, d] == [a] + [b, c, d] && [b, c, d] == [b] + [c, d] && [c, d] == [c] + [d];
    Splitting.JoinCons(c, [d], "/");
    assert Splitting.Join([c, d], "/") == tail;
    Splitting.JoinCons(b, [c, d], "/");
    assert Splitting.Join([b, c, d], "/") == b + "/" + tail;
    Splitting.JoinCons(a, [b, c, d], "/");
    assert Splitting.Join([a, b, c, d], "/") == a + "/" + (b + "/" + tail);
    assert a + "/" + (b + "/" + tail) == a + "/" + b + "/" + tail;
    assert a + "/" + b + "/" + tail == a + "/" + b + "/" + c + "/" + d;
  }

  /** Different addresses have different paths. */
  lemma PathsAreInjective(root: string, h: string, k: string)
    requires IsAddress(h) && IsAddress(k) && PathForHash(root, h) == PathForHash(root, k)
    ensures h == k
  {
    TailOfPath(root, h);
    TailOfPath(root, k);
  }

  lemma TailOfTmp(root: string, h: string, tag: string)
    requires IsAddress(h) && IsSegment(tag)
    ensures Tail(TmpPath(root, h, tag)) == h + ".tmp." + tag
  {
    AddressIsSegment(h);
    TailOfPath(root, h);
    var name := h + ".tmp." + tag;
    forall c | c in name ensures !IsSeparator(c) {
      assert c in h || c in ".tmp." || c in tag;
    }
    TailOfJoin(Shard(root, h), name);
  }

  /** A temporary file is never a content-addressed object. */
  lemma TmpIsNoObject(root: string, h: string, tag: string, k: string)
    requires IsAddress(h) && IsAddress(k) && IsSegment(tag)
    ensures TmpPath(root, h, tag) != PathForHash(root, k)
  {
    TailOfTmp(root, h, tag);
    TailOfPath(root, k);
  }

  /** Distinct tags give distinct temporary files, even for the same object. */
  lemma TmpsAreDistinct(root: string, h: string, tag: string, k: string, tag': string)
    requires IsAddress(h) && IsAddress(k) && IsSegment(tag) && IsSegment(tag') && tag != tag'
    ensures TmpPath(root, h, tag) != TmpPath(root, k, tag')
  {
    TailOfTmp(root, h, tag);
    TailOfTmp(root, k, tag');
    var a, b := h + ".tmp." + tag, k + ".tmp." + tag';
    assert a[69..] == tag && b[69..] == tag';
  }
}
