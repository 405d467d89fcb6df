/**
 Paths of a Unix file system without symbolic links: the components of a path text,
 the canonical path it leads to from a working directory, and the text of a
 canonical path.
 */
module Paths {
  import opened CasAddress
  import Splitting

  /** A canonical path: the names from the top of the file system down. */
  type Path = seq<string>

  predicate IsName(s: string) { s != "" && s != "." && s != ".." && '/' !in s }

  predicate IsPath(p: Path) { forall i :: 0 <= i < |p| ==> IsName(p[i]) }

  /** Empty pieces and `.` mean nothing. */
  function Names(pieces: seq<string>): seq<string> {
    if pieces == [] then []
    else (if pieces[0] == "" || pieces[0] == "." then [] else [pieces[0]]) + Names(pieces[1..])
  }

  function Components(path: string): seq<string> { Names(Splitting.Split(path, '/')) }

  /** Following components from a directory; `..` goes up, and stays at the top. */
  function Walk(from: Path, names: seq<string>): Path
    decreases |names|
  {
    if names == [] then from
    else if names[0] == ".." then Walk(if from == [] then [] else from[..|from| - 1], names[1..])
    else Walk(from + [names[0]], names[1..])
  }

  /** The canonical path of `path` seen from the directory `from`. */
  function Resolve(from: Path, path: string): Path {
    Walk(if IsAbsolute(path) then [] else from, Components(path))
  }

  /** The text insists on a directory: it ends in a slash or in `.`. */
  predicate NamesDirectory(path: string) {
    var pieces := Splitting.Split(path, '/');
    pieces[|pieces| - 1] == "" || pieces[|pieces| - 1] == "."
  }

  function TextOf(p: Path): string {
    if p == [] then "/" else Join(TextOf(p[..|p| - 1]), p[|p| - 1])
  }

  lemma {:induction false} NamesConcat(a: seq<string>, b: seq<string>)
    ensures Names(a + b) == Names(a) + Names(b)
  {
    if a == [] {
      assert a + b == b;
    } else {
      assert (a + b)[1..] == a[1..] + b;
      NamesConcat(a[1..], b);
    }
  }

  /** Joining a name adds one component, whatever slashes and dots the base has. */
  lemma JoinAddsName(base: string, name: string)
    requires IsName(name)
    ensures Components(Join(base, name)) == Components(base) + [name]
    ensures IsAbsolute(Join(base, name)) <==> IsAbsolute(base)
    ensures !NamesDirectory(Join(base, name))
  {
    assert Names([name]) == [name];
    if base == "" {
      Splitting.SplitNone(name, '/');
      assert name[0] in name;
    } else if base[|base| - 1] == '/' {
      var p := base[..|base| - 1];
      assert base == p + "/" + "" && Join(base, name) == p + "/" + name;
      Splitting.SplitSnoc(p, '/', name);
      NamesConcat(Splitting.Split(p, '/'), [name]);
      Splitting.SplitSnoc(p, '/', "");
      NamesConcat(Splitting.Split(p, '/'), [""]);
      assert Names([""]) == [];
    } else {
      Splitting.SplitSnoc(base, '/', name);
      NamesConcat(Splitting.Split(base, '/'), [name]);
    }
  }

  lemma {:induction false} WalkPlain(from: Path, names: seq<string>)
    requires ".." !in names
    ensures Walk(from, names) == from + names
    decreases |names|
  {
    if names != [] {
      assert names[0] in names;
      WalkPlain(from + [names[0]], names[1..]);
      assert from + [names[0]] + names[1..] == from + names;
    }
  }

  lemma {:induction false} WalkConcat(from: Path, a: seq<string>, b: seq<string>)
    ensures Walk(from, a + b) == Walk(Walk(from, a), b)
    decreases |a|
  {
    if a == [] {
      assert a + b == b;
    } else {
      assert (a + b)[1..] == a[1..] + b;
      WalkConcat(if a[0] != ".." then from + [a[0]] else if from == [] then [] else from[..|from| - 1], a[1..], b);
    }
  }

  lemma {:induction false} PiecesLackSlash(path: string)
    ensures forall piece :: piece in Splitting.Split(path, '/') ==> '/' !in piece
  {
    if path != "" {
      PiecesLackSlash(path[1..]);
    }
  }

  lemma {:induction false} NamesArePieces(pieces: seq<string>)
    ensures forall n :: n in Names(pieces) <==> n in pieces && n != "" && n != "."
  {
    if pieces != [] {
      NamesArePieces(pieces[1..]);
    }
  }

  lemma {:induction false} WalkStaysPath(from: Path, names: seq<string>)
    requires IsPath(from) && forall n :: n in names ==> IsName(n) || n == ".."
    ensures IsPath(Walk(from, names))
    decreases |names|
  {
    if names != [] {
      assert names[0] in names && forall n :: n in names[1..] ==> n in names;
      var next := if names[0] != ".." then from + [names[0]] else if from == [] then [] else from[..|from| - 1];
      WalkStaysPath(next, names[1..]);
    }
  }

  /** A text leads from a canonical path to a canonical path. */
  lemma ResolveIsPath(from: Path, path: string)
    requires IsPath(from)
    ensures IsPath(Resolve(from, path))
  {
    PiecesLackSlash(path);
    NamesArePieces(Splitting.Split(path, '/'));
    WalkStaysPath(if IsAbsolute(path) then [] else from, Components(path));
  }

  /** The text of a canonical path is absolute and leads back to it. */
  lemma {:induction false} TextLeadsBack(p: Path)
    requires IsPath(p)
    ensures IsAbsolute(TextOf(p)) && Components(TextOf(p)) == p
  {
    if p == [] {
      assert Splitting.Split("/", '/') == ["", ""];
    } else {
      TextLeadsBack(p[..|p| - 1]);
      JoinAddsName(TextOf(p[..|p| - 1]), p[|p| - 1]);
    }
  }
}
