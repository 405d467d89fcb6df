/**
 The byte scanner that finds the first JSON array or object inside model prose
 (`extract_json_substring`), and the exact meaning of the slice it returns.

 The meaning is stated without the scanner: `After` is a lexer over a prefix of
 the text (inside a string or not, how many brackets are open), and `Closes`
 says that a slice opens when nothing is open and ends where its own closer
 closes it.
 */
module JsonScan {
  import opened Wrappers
  import opened Texts

  newtype I32 = x: int | -0x8000_0000 <= x < 0x8000_0000

  const QUOTE: Byte := 0x22
  const BACKSLASH: Byte := 0x5C
  const OPEN_BRACKET: Byte := 0x5B
  const CLOSE_BRACKET: Byte := 0x5D
  const OPEN_BRACE: Byte := 0x7B
  const CLOSE_BRACE: Byte := 0x7D

  predicate IsOpener(b: Byte) { b == OPEN_BRACKET || b == OPEN_BRACE }

  predicate IsCloser(b: Byte) { b == CLOSE_BRACKET || b == CLOSE_BRACE }

  function CloserOf(open: Byte): Byte {
    if open == OPEN_BRACKET then CLOSE_BRACKET else CLOSE_BRACE
  }

  // ---- Reference meaning -------------------------------------------------

  /** What a prefix leaves open: a string literal, an escape in it, brackets. */
  datatype Lex = Lex(inStr: bool, escape: bool, depth: nat)

  /** Outside every string with `depth` brackets open. */
  function Out(depth: nat): Lex { Lex(false, false, depth) }

  /** One byte. A closer with nothing open is prose, so the depth stays at zero. */
  function Next(l: Lex, b: Byte): Lex {
    if l.inStr then
      if l.escape then l.(escape := false)
      else if b == BACKSLASH then l.(escape := true)
      else if b == QUOTE then l.(inStr := false)
      else l
    else if b == QUOTE then l.(inStr := true)
    else if IsOpener(b) then l.(depth := l.depth + 1)
    else if IsCloser(b) && l.depth > 0 then l.(depth := l.depth - 1)
    else l
  }

  function After(l: Lex, t: Text): Lex
    decreases |t|
  {
    if t == [] then l else After(Next(l, t[0]), t[1..])
  }

  lemma {:induction false} AfterConcat(l: Lex, a: Text, b: Text)
    ensures After(l, a + b) == After(After(l, a), b)
    decreases |a|
  {
    if a == [] {
      assert a + b == b;
    } else {
      assert (a + b)[1..] == a[1..] + b;
      AfterConcat(Next(l, a[0]), a[1..], b);
    }
  }

  lemma AfterSnoc(l: Lex, t: Text, k: nat)
    requires k < |t|
    ensures After(l, t[..k + 1]) == Next(After(l, t[..k]), t[k])
  {
    assert t[..k + 1] == t[..k] + [t[k]];
    AfterConcat(l, t[..k], [t[k]]);
  }

  /** What the first `k` bytes of `s` leave open. */
  function At(s: Text, k: nat): Lex {
    After(Out(0), if k <= |s| then s[..k] else s)
  }

  /** `s[lo..hi]` opens with nothing open, stays open, and ends at its own closer. */
  ghost predicate Closes(s: Text, lo: nat, hi: nat) {
    && lo < hi <= |s|
    && At(s, lo) == Out(0)
    && IsOpener(s[lo])
    && (forall k: nat :: lo < k < hi ==> At(s, k).depth > 0)
    && At(s, hi) == Out(0)
    && s[hi - 1] == CloserOf(s[lo])
  }

  ghost predicate NothingClosesBefore(s: Text, hi: nat) {
    forall l: nat, h: nat :: h < hi ==> !Closes(s, l, h)
  }

  /** The slice that closes first. */
  ghost predicate First(s: Text, lo: nat, hi: nat) {
    Closes(s, lo, hi) && NothingClosesBefore(s, hi)
  }

  datatype Span = Span(lo: nat, hi: nat)

  /** The slice of `s` that closes first, if any slice does. */
  ghost function FirstClosed(s: Text): (r: Option<Span>)
    ensures r.Some? ==> First(s, r.value.lo, r.value.hi)
    ensures r.None? ==> forall lo: nat, hi: nat :: !First(s, lo, hi)
  {
    if exists lo: nat, hi: nat :: First(s, lo, hi) then
      var lo: nat, hi: nat :| First(s, lo, hi);
      Some(Span(lo, hi))
    else
      None
  }

  lemma FirstIsUnique(s: Text, lo: nat, hi: nat)
    requires First(s, lo, hi)
    ensures FirstClosed(s) == Some(Span(lo, hi))
  {
    var r := FirstClosed(s);
    var span := r.value;
    assert hi == span.hi;
    var atFound, atGiven := At(s, span.lo), At(s, lo);
  }

  // ---- The scanner -------------------------------------------------------

  /**
   The scanner's loop. Its early exit through a missing `start` cannot happen:
   `start` is known exactly when a bracket is open.
   */
  method ExtractJsonSubstring(s: Text) returns (r: Option<Span>)
    requires |s| < 0x8000_0000
    ensures r == FirstClosed(s)
    ensures r.None? ==> forall lo: nat, hi: nat :: !Closes(s, lo, hi)
  {
    var start: Option<nat> := None;
    var depth: I32 := 0;
    var inStr := false;
    var escape := false;
    var open: Byte := 0;
    for i := 0 to |s|
      invariant At(s, i) == Lex(inStr, escape, depth as nat)
      invariant 0 <= depth as int <= i
      invariant escape ==> inStr
      invariant start.Some? <==> depth > 0
      invariant start.Some? ==> OpenSince(s, start.value, i) && open == s[start.value]
      invariant NothingClosesBefore(s, i + 1)
    {
      var b := s[i];
      AfterSnoc(Out(0), s, i);
      NoneClosesUnlessReset(s, i, start);
      if inStr {
        if escape {
          escape := false;
        } else if b == BACKSLASH {
          escape := true;
        } else if b == QUOTE {
          inStr := false;
        }
        continue;
      }
      if b == QUOTE {
        inStr := true;
      } else if IsOpener(b) {
        if depth == 0 {
          start := Some(i);
          open := b;
        }
        depth := depth + 1;
      } else if IsCloser(b) {
        if depth == 0 {
          continue;
        }
        var expected := if open == OPEN_BRACKET then CLOSE_BRACKET else CLOSE_BRACE;
        if b != expected && depth == 1 {
          depth := 0;
          start := None;
          continue;
        }
        depth := depth - 1;
        if depth == 0 {
          assert start.Some?;
          FirstIsUnique(s, start.value, i + 1);
          return Some(Span(start.value, i + 1));
        }
      }
    }
    return None;
  }

  /** A bracket opened at `lo` from an idle state and has stayed open up to `i`. */
  ghost predicate OpenSince(s: Text, lo: nat, i: nat) {
    && lo < i <= |s|
    && At(s, lo) == Out(0)
    && IsOpener(s[lo])
    && forall k: nat :: lo < k <= i ==> At(s, k).depth > 0
  }

  /** A slice can close at byte `i` only if it opened where the open bracket did. */
  lemma NoneClosesUnlessReset(s: Text, i: nat, start: Option<nat>)
    requires i < |s|
    requires NothingClosesBefore(s, i + 1)
    requires start.Some? ==> OpenSince(s, start.value, i)
    requires start.None? ==> At(s, i).depth == 0
    ensures forall l: nat, h: nat :: h < i + 2 && Closes(s, l, h) ==>
      h == i + 1 && start == Some(l) && s[i] == CloserOf(s[l]) && At(s, i + 1) == Out(0)
  {
    AfterSnoc(Out(0), s, i);
    var from := if start.Some? then start.value else i;
    forall l: nat, h: nat | h < i + 2 && Closes(s, l, h)
      ensures h == i + 1 && start == Some(l)
    {
      assert h == i + 1;
      assert l < i ==> At(s, i).depth > 0;
      var atSlice, atStart := At(s, l), At(s, from);
    }
  }

  // ---- Ends of the slice are character boundaries --------------------------

  /** A continuation byte of UTF-8 (section 3 of RFC 3629). */
  predicate IsContinuation(b: Byte) { 0x80 <= b < 0xC0 }

  /** How many bytes the character led by `b` has, zero when `b` leads none. */
  function CharLen(b: Byte): nat {
    if b < 0x80 then 1
    else if 0xC2 <= b < 0xE0 then 2
    else if 0xE0 <= b < 0xF0 then 3
    else if 0xF0 <= b < 0xF5 then 4
    else 0
  }

  /** Every lead byte is followed by exactly its continuation bytes. */
  predicate IsUtf8(s: Text) {
    s == [] ||
    var n := CharLen(s[0]);
    && 0 < n <= |s|
    && (forall k: nat :: 1 <= k < n ==> IsContinuation(s[k]))
    && IsUtf8(s[n..])
  }

  /** Where a string slice may begin or end. */
  predicate IsCharBoundary(s: Text, k: nat) {
    k == |s| || (k < |s| && !IsContinuation(s[k]))
  }

  lemma {:induction false} BoundaryAfterAscii(s: Text, k: nat)
    requires IsUtf8(s) && k < |s| && s[k] < 0x80
    ensures IsCharBoundary(s, k + 1)
  {
    var n := CharLen(s[0]);
    if k >= n {
      BoundaryAfterAscii(s[n..], k - n);
    } else if n < |s| {
      assert k == 0;
      assert CharLen(s[n..][0]) > 0;
    }
  }

  /** Slicing at the two ends cannot split a character. */
  lemma SliceEndsAreBoundaries(s: Text, lo: nat, hi: nat)
    requires IsUtf8(s) && Closes(s, lo, hi)
    ensures IsCharBoundary(s, lo) && IsCharBoundary(s, hi)
  {
    BoundaryAfterAscii(s, hi - 1);
  }

  // ---- Which prefixes do not disturb what follows --------------------------

  /** A prefix that leaves nothing open and in which no slice closes. */
  ghost predicate Idle(p: Text) {
    After(Out(0), p) == Out(0) && NothingClosesBefore(p, |p| + 1)
  }

  /** Bytes that are neither a quote nor a bracket. */
  predicate IsPlain(b: Byte) { b != QUOTE && !IsOpener(b) && !IsCloser(b) }

  predicate AllPlain(t: Text) { forall b :: b in t ==> IsPlain(b) }

  lemma {:induction false} AfterPlain(l: Lex, t: Text)
    requires !l.inStr && AllPlain(t)
    ensures After(l, t) == l
    decreases |t|
  {
    if t != [] {
      assert t[0] in t && forall b :: b in t[1..] ==> b in t;
      AfterPlain(l, t[1..]);
    }
  }

  /** Prose without quotes and openers is idle, whatever closers it holds. */
  lemma {:induction false} QuietProseIsIdle(p: Text)
    requires forall b :: b in p ==> b != QUOTE && !IsOpener(b)
    ensures Idle(p)
  {
    AfterQuiet(p);
    assert forall k: nat :: k < |p| ==> p[k] in p;
  }

  lemma {:induction false} AfterQuiet(p: Text)
    requires forall b :: b in p ==> b != QUOTE && !IsOpener(b)
    ensures After(Out(0), p) == Out(0)
  {
    if p != [] {
      assert p[0] in p && forall b :: b in p[1..] ==> b in p;
      AfterQuiet(p[1..]);
    }
  }

  /**
   A text that, read from an idle state, opens at its first byte and closes at
   its last with its own closer.
   */
  ghost predicate SelfClosed(v: Text) {
    Closes(v, 0, |v|)
  }

  lemma AtShift(p: Text, v: Text, k: nat)
    requires After(Out(0), p) == Out(0) && k <= |v|
    ensures At(p + v, |p| + k) == At(v, k)
  {
    assert (p + v)[..|p| + k] == p + v[..k];
    AfterConcat(Out(0), p, v[..k]);
  }

  lemma AtPrefix(p: Text, v: Text, k: nat)
    requires k <= |p|
    ensures At(p + v, k) == At(p, k)
  {
    assert (p + v)[..k] == p[..k];
  }

  /** Whether a slice closes depends on nothing after it. */
  lemma ClosesIgnoresSuffix(p: Text, q: Text, lo: nat, hi: nat)
    requires hi <= |p|
    ensures Closes(p + q, lo, hi) <==> Closes(p, lo, hi)
  {
    forall k: nat | k <= |p| ensures At(p + q, k) == At(p, k) {
      AtPrefix(p, q, k);
    }
  }

  /**
   The scanner returns exactly this occurrence of `v` if and only if the prose
   before it is idle; what follows never matters.
   */
  lemma ExtractedIffPrefixIdle(p: Text, v: Text, q: Text)
    requires SelfClosed(v)
    ensures FirstClosed(p + v + q) == Some(Span(|p|, |p| + |v|)) <==> Idle(p)
  {
    var s := p + v + q;
    assert s == p + (v + q);
    forall l: nat, h: nat | h <= |p| ensures Closes(s, l, h) <==> Closes(p, l, h) {
      ClosesIgnoresSuffix(p, v + q, l, h);
    }
    AtPrefix(p, v + q, |p|);
    assert At(p, |p|) == After(Out(0), p) by { assert p[..|p|] == p; }
    if Idle(p) {
      SelfClosedIsFirst(p, v, q);
    }
  }

  lemma SelfClosedIsFirst(p: Text, v: Text, q: Text)
    requires SelfClosed(v) && Idle(p)
    ensures FirstClosed(p + v + q) == Some(Span(|p|, |p| + |v|))
  {
    var s := p + v + q;
    assert s == p + (v + q);
    forall k: nat | k <= |v| ensures At(s, |p| + k) == At(v, k) {
      AtShift(p, v + q, k);
      AtPrefix(v, q, k);
    }
    forall k: nat | |p| < k < |p| + |v| ensures At(s, k).depth > 0 {
      assert At(s, |p| + (k - |p|)) == At(v, k - |p|);
    }
    assert At(s, |p| + 0) == Out(0);
    assert Closes(s, |p|, |p| + |v|);
    forall l: nat, h: nat | h < |p| + |v| ensures !Closes(s, l, h) {
      if h <= |p| {
        ClosesIgnoresSuffix(p, v + q, l, h);
      }
    }
    FirstIsUnique(s, |p|, |p| + |v|);
  }

  /** A stray quote before the JSON is enough to lose it: `"[]`. */
  lemma StrayQuoteLosesJson()
    ensures FirstClosed([QUOTE, OPEN_BRACKET, CLOSE_BRACKET]).None?
  {
    var s: Text := [QUOTE, OPEN_BRACKET, CLOSE_BRACKET];
    assert s[..1] == [QUOTE];
    assert s[..2] == [QUOTE, OPEN_BRACKET];
    AfterSnoc(Out(0), s, 0);
    AfterSnoc(Out(0), s, 1);
    AfterSnoc(Out(0), s, 2);
    forall lo: nat, hi: nat ensures !Closes(s, lo, hi) {
      assert 0 < hi <= |s| ==> At(s, hi).inStr;
    }
  }

  /** A bracket closed by the other kind yields nothing, and the search starts afresh behind it: `[}[]`. */
  lemma MismatchStartsAfresh()
    ensures FirstClosed([OPEN_BRACKET, CLOSE_BRACE, OPEN_BRACKET, CLOSE_BRACKET]) == Some(Span(2, 4))
  {
    var s: Text := [OPEN_BRACKET, CLOSE_BRACE, OPEN_BRACKET, CLOSE_BRACKET];
    assert At(s, 0) == Out(0);
    AfterSnoc(Out(0), s, 0);
    AfterSnoc(Out(0), s, 1);
    AfterSnoc(Out(0), s, 2);
    AfterSnoc(Out(0), s, 3);
    assert s[..4] == s;
    assert At(s, 1) == Out(1) && At(s, 2) == Out(0) && At(s, 3) == Out(1) && At(s, 4) == Out(0);
    assert Closes(s, 2, 4);
    forall lo: nat, hi: nat | hi < 4 ensures !Closes(s, lo, hi) {
      assert lo < hi && lo == 1 ==> At(s, 1).depth == 1;
    }
    FirstIsUnique(s, 2, 4);
  }
}
