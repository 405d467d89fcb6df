/**
 Scope paths (`ScopePath::parse`, `ScopePath::matches`): a parsed scope is a list of
 non-empty segments joined by slashes, and the prefix match made on the strings is
 the prefix order of the segment lists.
 */
module Scope {
  import opened Chars
  import opened Splitting
  import opened Wrappers

  datatype ScopeError =
    | Empty
    | OuterSlash
    | EmptySegment
    | Whitespace
    | TooLong
    | InvalidCharacters(segment: string)

  datatype ScopeMatch = Exact | Prefix

  const MAX_LENGTH := 512

  predicate SegmentChar(c: char) { AsciiAlnum(c) || c == '_' || c == '-' || c == '.' }

  predicate Plain(s: string) { forall i :: 0 <= i < |s| ==> SegmentChar(s[i]) }

  function Segments(s: string): seq<string> { Split(s, '/') }

  function Path(segments: seq<string>): string { Join(segments, "/") }

  predicate DoubleSlashAt(s: string, i: nat) { i + 1 < |s| && s[i] == '/' && s[i + 1] == '/' }

  predicate HasDoubleSlash(s: string) { exists i: nat :: i < |s| && DoubleSlashAt(s, i) }

  predicate OuterSlashed(s: string) { s != [] && (s[0] == '/' || s[|s| - 1] == '/') }

  /** The first segment at fault. */
  function SegmentFault(segments: seq<string>): Option<ScopeError> {
    if segments == [] then None
    else if segments[0] == [] then Some(EmptySegment)
    else if !Plain(segments[0]) then Some(InvalidCharacters(segments[0]))
    else SegmentFault(segments[1..])
  }

  function Parse(raw: string): Result<string, ScopeError> {
    var s := Trim(raw);
    if s == [] then Err(Empty)
    else if OuterSlashed(s) then Err(OuterSlash)
    else if HasDoubleSlash(s) then Err(EmptySegment)
    else if exists i :: 0 <= i < |s| && White(s[i]) then Err(Whitespace)
    else if ByteLength(s) > MAX_LENGTH then Err(TooLong)
    else match SegmentFault(Segments(s))
      case Some(e) => Err(e)
      case None => Ok(s)
  }

  predicate StartsWith(s: string, p: string) { |p| <= |s| && s[..|p|] == p }

  predicate Matches(query: string, stored: string, mode: ScopeMatch) {
    match mode
    case Exact => query == stored
    case Prefix =>
      stored == query || (StartsWith(stored, query) && |stored| > |query| && stored[|query|] == '/')
  }

  // ---- Segments ---------------------------------------------------------------------

  predicate Segment(s: string) { s != [] && Plain(s) }

  predicate AllSegments(segments: seq<string>) { forall k :: 0 <= k < |segments| ==> Segment(segments[k]) }

  predicate NoneEmpty(pieces: seq<string>) { forall k :: 0 <= k < |pieces| ==> pieces[k] != [] }

  lemma {:induction false} FaultIff(segments: seq<string>)
    ensures SegmentFault(segments).None? <==> AllSegments(segments)
  {
    if segments != [] {
      FaultIff(segments[1..]);
      assert segments == [segments[0]] + segments[1..];
    }
  }

  /** The segment named in an error is the first that is not plain. */
  lemma {:induction false} FaultIsTheFirst(segments: seq<string>, i: nat)
    requires i < |segments| && !Segment(segments[i]) && forall k :: 0 <= k < i ==> Segment(segments[k])
    ensures SegmentFault(segments)
      == Some(if segments[i] == [] then EmptySegment else InvalidCharacters(segments[i]))
  {
    if i > 0 {
      assert segments[1..][i - 1] == segments[i];
      assert forall k :: 0 <= k < i - 1 ==> segments[1..][k] == segments[k + 1];
      FaultIsTheFirst(segments[1..], i - 1);
    }
  }

  /** Which error a refused scope gets: the first of the six checks it fails. */
  lemma ErrorNamesTheFirstCheck(raw: string)
    ensures var s, r := Trim(raw), Parse(raw);
      var slashed := s == [] || OuterSlashed(s) || HasDoubleSlash(s);
      var spaced := exists i :: 0 <= i < |s| && White(s[i]);
      && (r == Err(Empty) <==> s == [])
      && (r == Err(OuterSlash) <==> s != [] && OuterSlashed(s))
      && (r == Err(EmptySegment) <==> s != [] && !OuterSlashed(s) && HasDoubleSlash(s))
      && (r == Err(Whitespace) <==> !slashed && spaced)
      && (r == Err(TooLong) <==> !slashed && !spaced && ByteLength(s) > MAX_LENGTH)
      && (r.Err? && r.error.InvalidCharacters? <==>
            !slashed && !spaced && ByteLength(s) <= MAX_LENGTH && !AllSegments(Segments(s)))
  {
    var s := Trim(raw);
    FaultIff(Segments(s));
    NoEmptySegmentIff(s);
    if NoneEmpty(Segments(s)) {
      FaultIsNoEmptySegment(Segments(s));
    }
  }

  lemma {:induction false} FaultIsNoEmptySegment(segments: seq<string>)
    requires NoneEmpty(segments)
    ensures SegmentFault(segments).Some? ==> SegmentFault(segments).value.InvalidCharacters?
  {
    if segments != [] {
      FaultIsNoEmptySegment(segments[1..]);
    }
  }

  /** The slash checks are exactly that no segment is empty, so the check in the loop adds nothing. */
  lemma {:induction false} NoEmptySegmentIff(s: string)
    ensures NoneEmpty(Segments(s)) <==> s != [] && !OuterSlashed(s) && !HasDoubleSlash(s)
    decreases |s|
  {
    if s != [] && s[0] != '/' && |s| > 1 {
      var t := s[1..];
      assert t[|t| - 1] == s[|s| - 1];
      if t[0] == '/' {
        NoEmptySegmentIff(t[1..]);
        SlashTail(s, 2);
        var rest := Segments(t[1..]);
        assert Segments(t) == [[]] + rest && ([[]] + rest)[1..] == rest && [s[0]] + [] == [s[0]];
        assert Segments(s) == [[s[0]]] + Segments(t[1..]);
        ConsNoneEmpty([s[0]], Segments(t[1..]));
        assert s[2..] == t[1..];
        assert t[1..] != [] && t[1] == '/' ==> DoubleSlashAt(s, 1);
      } else {
        NoEmptySegmentIff(t);
        SlashTail(s, 1);
        var rest := Segments(t);
        assert Segments(s) == [[s[0]] + rest[0]] + rest[1..];
        FirstOfSplit(t);
        ConsNoneEmpty([s[0]] + rest[0], rest[1..]);
        ConsNoneEmpty(rest[0], rest[1..]);
        assert rest == [rest[0]] + rest[1..];
      }
    } else if s == [] {
      assert Segments(s)[0] == [];
    } else if s[0] == '/' {
      assert Segments(s)[0] == [];
    } else {
      assert s == [s[0]];
      assert Segments(s) == [s];
    }
  }

  lemma FirstOfSplit(s: string)
    requires s != [] && s[0] != '/'
    ensures Segments(s)[0] != []
  {
  }

  lemma ConsNoneEmpty(first: string, rest: seq<string>)
    requires first != []
    ensures NoneEmpty([first] + rest) <==> NoneEmpty(rest)
  {
    if NoneEmpty([first] + rest) {
      forall k | 0 <= k < |rest| ensures rest[k] != [] {
        assert ([first] + rest)[k + 1] == rest[k];
      }
    }
  }

  /** A double slash is in the tail or at its edge. */
  lemma SlashTail(s: string, n: nat)
    requires 0 < n <= |s| && n <= 2 && s[0] != '/'
    ensures HasDoubleSlash(s) <==> HasDoubleSlash(s[n..]) || (n == 2 && DoubleSlashAt(s, 1))
  {
    if HasDoubleSlash(s[n..]) {
      var i: nat :| i < |s[n..]| && DoubleSlashAt(s[n..], i);
      assert DoubleSlashAt(s, i + n);
    }
    if HasDoubleSlash(s) {
      var i: nat :| i < |s| && DoubleSlashAt(s, i);
      if i >= n {
        assert DoubleSlashAt(s[n..], i - n);
      }
    }
  }

  predicate AllPlain(pieces: seq<string>) { forall k :: 0 <= k < |pieces| ==> Plain(pieces[k]) }

  predicate PathChars(s: string) { forall i :: 0 <= i < |s| ==> SegmentChar(s[i]) || s[i] == '/' }

  lemma {:induction false} PlainPiecesIff(s: string)
    ensures AllPlain(Segments(s)) <==> PathChars(s)
  {
    if s != [] {
      PlainPiecesIff(s[1..]);
      var rest := Segments(s[1..]);
      assert s == [s[0]] + s[1..];
      assert PathChars(s) <==> (SegmentChar(s[0]) || s[0] == '/') && PathChars(s[1..]);
      assert rest == [rest[0]] + rest[1..];
      ConsPlain(rest[0], rest[1..]);
      if s[0] == '/' {
        ConsPlain([], rest);
      } else {
        ConsPlain([s[0]] + rest[0], rest[1..]);
        assert Plain([s[0]] + rest[0]) <==> SegmentChar(s[0]) && Plain(rest[0]) by {
          assert ([s[0]] + rest[0])[1..] == rest[0];
        }
      }
    }
  }

  lemma ConsPlain(first: string, rest: seq<string>)
    ensures AllPlain([first] + rest) <==> Plain(first) && AllPlain(rest)
  {
    var all := [first] + rest;
    if AllPlain(all) {
      assert all[0] == first;
      forall k | 0 <= k < |rest| ensures Plain(rest[k]) {
        assert all[k + 1] == rest[k];
      }
    }
  }

  lemma {:induction false} PathCharsAreAscii(s: string)
    requires PathChars(s)
    ensures ByteLength(s) == |s| && forall i :: 0 <= i < |s| ==> !White(s[i])
  {
    if s != [] {
      PathCharsAreAscii(s[1..]);
    }
  }

  // ---- Parsing ------------------------------------------------------------------------

  /** A canonical scope: segments joined by slashes, at most 512 characters. */
  predicate Canonical(s: string) { AllSegments(Segments(s)) && |s| <= MAX_LENGTH }

  /** Parsing accepts exactly the texts that are canonical once trimmed, and returns them trimmed. */
  lemma ParsesIff(raw: string)
    ensures Parse(raw).Ok? <==> Canonical(Trim(raw))
    ensures Parse(raw).Ok? ==> Parse(raw).value == Trim(raw)
  {
    var s := Trim(raw);
    FaultIff(Segments(s));
    SegmentsAre(Segments(s));
    NoEmptySegmentIff(s);
    PlainPiecesIff(s);
    if PathChars(s) {
      PathCharsAreAscii(s);
    }
  }

  lemma SegmentsAre(pieces: seq<string>)
    ensures AllSegments(pieces) <==> NoneEmpty(pieces) && AllPlain(pieces)
  {
  }

  /** A scope that was parsed parses to itself. */
  lemma ParseIsIdempotent(raw: string)
    requires Parse(raw).Ok?
    ensures Parse(Parse(raw).value) == Parse(raw)
  {
    ParsesIff(raw);
    TrimTwice(raw);
    ParsesIff(Trim(raw));
  }

  lemma {:induction false} SegmentsOfPath(segments: seq<string>)
    requires segments != [] && AllSegments(segments)
    ensures Segments(Path(segments)) == segments
  {
    assert Segment(segments[0]);
    NoSlash(segments[0]);
    if |segments| == 1 {
      SplitNone(segments[0], '/');
    } else {
      SegmentsOfPath(segments[1..]);
      SplitCons(segments[0], '/', Path(segments[1..]));
      assert segments == [segments[0]] + segments[1..];
    }
  }

  lemma NoSlash(s: string)
    requires Plain(s)
    ensures '/' !in s
  {
  }

  /** Every list of segments that is short enough is printed and parsed back, whatever white space is around it. */
  lemma PathParses(segments: seq<string>, before: string, after: string)
    requires segments != [] && AllSegments(segments) && |Path(segments)| <= MAX_LENGTH
    requires AllWhite(before) && AllWhite(after)
    ensures Parse(before + Path(segments) + after) == Ok(Path(segments))
    ensures Segments(Path(segments)) == segments
  {
    var s := Path(segments);
    SegmentsOfPath(segments);
    SegmentsAre(segments);
    NoEmptySegmentIff(s);
    PlainPiecesIff(s);
    PathCharsAreAscii(s);
    TrimAround(before, s, after);
    ParsesIff(before + s + after);
  }

  // ---- Matching ----------------------------------------------------------------------------

  lemma {:induction false} SplitAcross(a: string, b: string)
    ensures Segments(a + ['/'] + b) == Segments(a) + Segments(b)
  {
    if a == [] {
      assert a + ['/'] + b == ['/'] + b;
    } else {
      var s := a + ['/'] + b;
      assert s[1..] == a[1..] + ['/'] + b && s[0] == a[0];
      SplitAcross(a[1..], b);
      StepAcross(a[0], Segments(a[1..]), Segments(b));
    }
  }

  /** One step of splitting, on the pieces of the rest. */
  function Grow(c: char, pieces: seq<string>): seq<string>
    requires pieces != []
  {
    if c == '/' then [[]] + pieces else [[c] + pieces[0]] + pieces[1..]
  }

  lemma StepAcross(c: char, first: seq<string>, rest: seq<string>)
    requires first != []
    ensures Grow(c, first + rest) == Grow(c, first) + rest
  {
    assert (first + rest)[1..] == first[1..] + rest;
  }

  /** For all texts: matching as a prefix is having the query's segments first. */
  lemma PrefixIsSegmentPrefix(query: string, stored: string)
    ensures Matches(query, stored, Prefix) <==> Segments(query) <= Segments(stored)
  {
    JoinOfSplit(query, '/');
    JoinOfSplit(stored, '/');
    if stored != query && Matches(query, stored, Prefix) {
      var rest := stored[|query| + 1..];
      assert stored == query + ['/'] + rest;
      SplitAcross(query, rest);
    }
    if Segments(query) <= Segments(stored) {
      var rest := Segments(stored)[|Segments(query)|..];
      assert Segments(stored) == Segments(query) + rest;
      if rest == [] {
        assert Segments(stored) == Segments(query);
      } else {
        JoinAcross(Segments(query), rest);
        assert stored == query + "/" + Path(rest);
      }
    }
  }

  lemma {:induction false} JoinAcross(a: seq<string>, b: seq<string>)
    requires a != [] && b != []
    ensures Path(a + b) == Path(a) + "/" + Path(b)
  {
    if |a| == 1 {
      assert (a + b)[1..] == b;
    } else {
      assert (a + b)[1..] == a[1..] + b;
      JoinAcross(a[1..], b);
    }
  }

  /** Reflexive, antisymmetric and transitive. */
  lemma PrefixIsAPartialOrder(a: string, b: string, c: string)
    ensures Matches(a, a, Prefix)
    ensures Matches(a, b, Prefix) && Matches(b, a, Prefix) ==> a == b
    ensures Matches(a, b, Prefix) && Matches(b, c, Prefix) ==> Matches(a, c, Prefix)
  {
    PrefixIsSegmentPrefix(a, b);
    PrefixIsSegmentPrefix(b, c);
    PrefixIsSegmentPrefix(a, c);
  }

  /** Two queries that match one stored scope are comparable: scopes form a tree. */
  lemma MatchingQueriesAreComparable(a: string, b: string, stored: string)
    requires Matches(a, stored, Prefix) && Matches(b, stored, Prefix)
    ensures Matches(a, b, Prefix) || Matches(b, a, Prefix)
  {
    PrefixIsSegmentPrefix(a, stored);
    PrefixIsSegmentPrefix(b, stored);
    PrefixIsSegmentPrefix(a, b);
    PrefixIsSegmentPrefix(b, a);
    var p, q, s := Segments(a), Segments(b), Segments(stored);
    assert p == s[..|p|] && q == s[..|q|];
    if |p| <= |q| {
      assert p == q[..|p|];
    } else {
      assert q == p[..|q|];
    }
  }

  /** The default mode admits nothing that the prefix mode does not, and is equality on segments. */
  lemma ExactIsTheLeastMatch(query: string, stored: string)
    ensures Matches(query, stored, Exact) <==> Segments(query) == Segments(stored)
    ensures Matches(query, stored, Exact) ==> Matches(query, stored, Prefix)
  {
    JoinOfSplit(query, '/');
    JoinOfSplit(stored, '/');
  }
}
