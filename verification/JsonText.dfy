/**
 JSON texts of RFC 8259 as trees that keep their insignificant whitespace, their
 printed form, and the theorem that every printed array or object is a slice
 the scanner of `JsonScan` recovers exactly.
 */
module JsonText {
  import opened Wrappers
  import opened Texts
  import opened JsonScan

  const COMMA: Byte := 0x2C
  const COLON: Byte := 0x3A

  datatype Name = False | Null | True

  /** Section 6: minus, integer digits, optional fraction and exponent. */
  datatype Number = Number(minus: bool, digits: Text, frac: Option<Text>, exp: Option<Exponent>)
  datatype Exponent = Exponent(e: Byte, sign: Text, digits: Text)

  /** Section 7: an unescaped byte, a two-byte escape, or `\u` and four hex digits. */
  datatype StrByte = Raw(b: Byte) | Esc(b: Byte) | Hex(h0: Byte, h1: Byte, h2: Byte, h3: Byte)

  /** Sections 4 and 5: `Box` is an array or an object, `pad` is its blank inside. */
  datatype Value =
    | Literal(name: Name)
    | Num(num: Number)
    | Str(chars: seq<StrByte>)
    | EmptyBox(isObject: bool, pad: Text)
    | Box(isObject: bool, body: Body)

  datatype Body = Last(entry: Entry) | More(entry: Entry, rest: Body)

  /** One element or member with the blanks around it. */
  datatype Entry = Entry(before: Text, key: Option<Key>, value: Value, after: Text)

  datatype Key = Key(chars: seq<StrByte>, beforeColon: Text, afterColon: Text)

  // ---- Well-formed trees ----------------------------------------------------

  predicate IsBlank(t: Text) { forall b :: b in t ==> b in [0x20, 0x09, 0x0A, 0x0D] }

  predicate IsDigits(t: Text) { t != [] && forall b :: b in t ==> 0x30 <= b <= 0x39 }

  predicate IsNumber(n: Number) {
    && IsDigits(n.digits)
    && (|n.digits| > 1 ==> n.digits[0] != 0x30)
    && (n.frac.Some? ==> IsDigits(n.frac.value))
    && (n.exp.Some? ==>
      && n.exp.value.e in [0x65, 0x45]
      && n.exp.value.sign in [[], [0x2B], [0x2D]]
      && IsDigits(n.exp.value.digits))
  }

  predicate IsHexDigit(b: Byte) {
    0x30 <= b <= 0x39 || 0x41 <= b <= 0x46 || 0x61 <= b <= 0x66
  }

  predicate IsStrByte(c: StrByte) {
    match c
    case Raw(b) => b >= 0x20 && b != QUOTE && b != BACKSLASH
    case Esc(b) => b in [QUOTE, BACKSLASH, 0x2F, 0x62, 0x66, 0x6E, 0x72, 0x74]
    case Hex(h0, h1, h2, h3) => IsHexDigit(h0) && IsHexDigit(h1) && IsHexDigit(h2) && IsHexDigit(h3)
  }

  predicate IsStr(chars: seq<StrByte>) { forall c :: c in chars ==> IsStrByte(c) }

  predicate IsValue(v: Value) {
    match v
    case Literal(_) => true
    case Num(n) => IsNumber(n)
    case Str(chars) => IsStr(chars)
    case EmptyBox(_, pad) => IsBlank(pad)
    case Box(isObject, body) => IsBody(body, isObject)
  }

  predicate IsBody(body: Body, isObject: bool) {
    match body
    case Last(e) => IsEntry(e, isObject)
    case More(e, rest) => IsEntry(e, isObject) && IsBody(rest, isObject)
  }

  predicate IsEntry(e: Entry, isObject: bool) {
    && IsBlank(e.before)
    && IsBlank(e.after)
    && e.key.Some? == isObject
    && (e.key.Some? ==>
      && IsStr(e.key.value.chars)
      && IsBlank(e.key.value.beforeColon)
      && IsBlank(e.key.value.afterColon))
    && IsValue(e.value)
  }

  /** The trees the theorem is about: arrays and objects. */
  predicate IsContainer(v: Value) { (v.EmptyBox? || v.Box?) && IsValue(v) }

  // ---- Printed form ---------------------------------------------------------

  function PrintName(n: Name): Text {
    match n
    case False => [0x66, 0x61, 0x6C, 0x73, 0x65]
    case Null => [0x6E, 0x75, 0x6C, 0x6C]
    case True => [0x74, 0x72, 0x75, 0x65]
  }

  function PrintNumber(n: Number): Text {
    (if n.minus then [0x2D] else [])
    + n.digits
    + (if n.frac.Some? then [0x2E] + n.frac.value else [])
    + (if n.exp.Some? then [n.exp.value.e] + n.exp.value.sign + n.exp.value.digits else [])
  }

  function PrintStrByte(c: StrByte): Text {
    match c
    case Raw(b) => [b]
    case Esc(b) => [BACKSLASH, b]
    case Hex(h0, h1, h2, h3) => [BACKSLASH, 0x75, h0, h1, h2, h3]
  }

  function PrintChars(chars: seq<StrByte>): Text {
    if chars == [] then [] else PrintStrByte(chars[0]) + PrintChars(chars[1..])
  }

  function PrintStr(chars: seq<StrByte>): Text { [QUOTE] + PrintChars(chars) + [QUOTE] }

  function OpenerFor(isObject: bool): Byte { if isObject then OPEN_BRACE else OPEN_BRACKET }

  function Wrap(isObject: bool, inside: Text): Text {
    [OpenerFor(isObject)] + inside + [CloserOf(OpenerFor(isObject))]
  }

  function Print(v: Value): Text {
    match v
    case Literal(n) => PrintName(n)
    case Num(n) => PrintNumber(n)
    case Str(chars) => PrintStr(chars)
    case EmptyBox(isObject, pad) => Wrap(isObject, pad)
    case Box(isObject, body) => Wrap(isObject, PrintBody(body))
  }

  function PrintBody(body: Body): Text {
    match body
    case Last(e) => PrintEntry(e)
    case More(e, rest) => PrintEntry(e) + ([COMMA] + PrintBody(rest))
  }

  function PrintEntry(e: Entry): Text {
    e.before + (PrintKey(e.key) + (Print(e.value) + e.after))
  }

  function PrintKey(key: Option<Key>): Text {
    match key
    case None => []
    case Some(k) => PrintStr(k.chars) + (k.beforeColon + ([COLON] + k.afterColon))
  }

  // ---- Texts that leave the lexer where they found it -----------------------

  /** Read with `d` brackets open, `t` never closes one of them and opens none for good. */
  ghost predicate Neutral(t: Text, d: nat) {
    && After(Out(d), t) == Out(d)
    && forall k: nat :: k <= |t| ==> After(Out(d), t[..k]).depth >= d
  }

  lemma NeutralConcat(a: Text, b: Text, d: nat)
    requires Neutral(a, d) && Neutral(b, d)
    ensures Neutral(a + b, d)
  {
    AfterConcat(Out(d), a, b);
    forall k: nat | k <= |a + b| ensures After(Out(d), (a + b)[..k]).depth >= d {
      if k <= |a| {
        assert (a + b)[..k] == a[..k];
      } else {
        assert (a + b)[..k] == a + b[..k - |a|];
        AfterConcat(Out(d), a, b[..k - |a|]);
      }
    }
  }

  lemma NeutralPlain(t: Text, d: nat)
    requires AllPlain(t)
    ensures Neutral(t, d)
  {
    AfterPlain(Out(d), t);
    forall k: nat | k <= |t| ensures After(Out(d), t[..k]).depth >= d {
      AfterPlain(Out(d), t[..k]);
    }
  }

  /** Inside a string the depth never moves. */
  lemma {:induction false} DepthFrozenInString(l: Lex, t: Text)
    requires l.inStr && forall k: nat :: k < |t| ==> After(l, t[..k]).inStr
    ensures forall k: nat :: k <= |t| ==> After(l, t[..k]).depth == l.depth
    decreases |t|
  {
    if t != [] {
      var n := Next(l, t[0]);
      forall k: nat | k <= |t[1..]| ensures After(n, t[1..][..k]) == After(l, t[..k + 1]) {
        assert t[..k + 1][1..] == t[1..][..k];
      }
      if |t| > 1 {
        assert t[1..][..0] == [] && After(n, t[1..][..0]) == After(l, t[..0 + 1]);
        forall k: nat | k < |t[1..]| ensures After(n, t[1..][..k]).inStr {
          assert After(l, t[..k + 1]).inStr;
        }
        DepthFrozenInString(n, t[1..]);
      }
      forall k: nat | k <= |t| ensures After(l, t[..k]).depth == l.depth {
        if k > 1 {
          assert After(n, t[1..][..k - 1]) == After(l, t[..k]);
        } else if k == 1 {
          assert t[..1] == [t[0]];
        }
      }
    }
  }

  /** The characters of a string leave the lexer in the string, unescaped. */
  lemma {:induction false} CharsStayInString(chars: seq<StrByte>, d: nat)
    requires IsStr(chars)
    ensures var l := Lex(true, false, d); After(l, PrintChars(chars)) == l
    ensures forall k: nat :: k <= |PrintChars(chars)| ==>
      After(Lex(true, false, d), PrintChars(chars)[..k]).inStr
  {
    var l := Lex(true, false, d);
    if chars != [] {
      var head, tail := PrintStrByte(chars[0]), PrintChars(chars[1..]);
      assert chars[0] in chars && forall c :: c in chars[1..] ==> c in chars;
      CharStaysInString(chars[0], d);
      CharsStayInString(chars[1..], d);
      AfterConcat(l, head, tail);
      forall k: nat | k <= |head + tail| ensures After(l, (head + tail)[..k]).inStr {
        if k <= |head| {
          assert (head + tail)[..k] == head[..k];
        } else {
          assert (head + tail)[..k] == head + tail[..k - |head|];
          AfterConcat(l, head, tail[..k - |head|]);
        }
      }
    }
  }

  lemma CharStaysInString(c: StrByte, d: nat)
    requires IsStrByte(c)
    ensures var l := Lex(true, false, d); After(l, PrintStrByte(c)) == l
    ensures forall k: nat :: k <= |PrintStrByte(c)| ==>
      After(Lex(true, false, d), PrintStrByte(c)[..k]).inStr
  {
    var l, t := Lex(true, false, d), PrintStrByte(c);
    assert t[..|t|] == t;
    match c
    case Raw(b) =>
      AfterSnoc(l, t, 0);
    case Esc(b) =>
      AfterSnoc(l, t, 0); AfterSnoc(l, t, 1);
    case Hex(h0, h1, h2, h3) =>
      AfterSnoc(l, t, 0); AfterSnoc(l, t, 1); AfterSnoc(l, t, 2);
      AfterSnoc(l, t, 3); AfterSnoc(l, t, 4); AfterSnoc(l, t, 5);
  }

  lemma NeutralString(chars: seq<StrByte>, d: nat)
    requires IsStr(chars)
    ensures Neutral(PrintStr(chars), d)
  {
    var t, inside := PrintStr(chars), PrintChars(chars);
    var l := Lex(true, false, d);
    CharsStayInString(chars, d);
    assert t == [QUOTE] + (inside + [QUOTE]);
    AfterConcat(Out(d), [QUOTE], inside + [QUOTE]);
    AfterConcat(l, inside, [QUOTE]);
    forall k: nat | k < |inside + [QUOTE]| ensures After(l, (inside + [QUOTE])[..k]).inStr {
      assert (inside + [QUOTE])[..k] == inside[..k];
    }
    DepthFrozenInString(l, inside + [QUOTE]);
    forall k: nat | k <= |t| ensures After(Out(d), t[..k]).depth >= d {
      if k > 0 {
        assert t[..k] == [QUOTE] + (inside + [QUOTE])[..k - 1];
        AfterConcat(Out(d), [QUOTE], (inside + [QUOTE])[..k - 1]);
      }
    }
  }

  /** Inside a pair of brackets the depth is at least one more than outside. */
  lemma WrapDepths(isObject: bool, inside: Text, d: nat)
    requires Neutral(inside, d + 1)
    ensures After(Out(d), Wrap(isObject, inside)) == Out(d)
    ensures forall k: nat :: 0 < k < |Wrap(isObject, inside)| ==>
      After(Out(d), Wrap(isObject, inside)[..k]).depth > d
  {
    var o, c := [OpenerFor(isObject)], [CloserOf(OpenerFor(isObject))];
    var t := Wrap(isObject, inside);
    assert t == o + (inside + c);
    AfterConcat(Out(d), o, inside + c);
    AfterConcat(Out(d + 1), inside, c);
    forall k: nat | 0 < k < |t| ensures After(Out(d), t[..k]).depth > d {
      assert t[..k] == o + inside[..k - 1];
      AfterConcat(Out(d), o, inside[..k - 1]);
    }
  }

  lemma NeutralWrap(isObject: bool, inside: Text, d: nat)
    requires Neutral(inside, d + 1)
    ensures Neutral(Wrap(isObject, inside), d)
  {
    WrapDepths(isObject, inside, d);
    var t := Wrap(isObject, inside);
    assert t[..|t|] == t;
  }

  lemma {:induction false} NeutralValue(v: Value, d: nat)
    requires IsValue(v)
    ensures Neutral(Print(v), d)
    decreases v
  {
    match v
    case Literal(_) =>
      NeutralPlain(Print(v), d);
    case Num(n) =>
      NeutralPlain(PrintNumber(n), d);
    case Str(chars) =>
      NeutralString(chars, d);
    case EmptyBox(isObject, pad) =>
      NeutralPlain(pad, d + 1);
      NeutralWrap(isObject, pad, d);
    case Box(isObject, body) =>
      NeutralBody(body, isObject, d + 1);
      NeutralWrap(isObject, PrintBody(body), d);
  }

  lemma {:induction false} NeutralBody(body: Body, isObject: bool, d: nat)
    requires IsBody(body, isObject)
    ensures Neutral(PrintBody(body), d)
    decreases body
  {
    NeutralEntry(body.entry, isObject, d);
    match body
    case Last(_) =>
    case More(e, rest) =>
      NeutralBody(rest, isObject, d);
      NeutralPlain([COMMA], d);
      NeutralConcat([COMMA], PrintBody(rest), d);
      NeutralConcat(PrintEntry(e), [COMMA] + PrintBody(rest), d);
  }

  lemma {:induction false} NeutralEntry(e: Entry, isObject: bool, d: nat)
    requires IsEntry(e, isObject)
    ensures Neutral(PrintEntry(e), d)
    decreases e
  {
    NeutralPlain(e.before, d);
    NeutralPlain(e.after, d);
    NeutralValue(e.value, d);
    NeutralKey(e.key, d);
    NeutralConcat(Print(e.value), e.after, d);
    NeutralConcat(PrintKey(e.key), Print(e.value) + e.after, d);
    NeutralConcat(e.before, PrintKey(e.key) + (Print(e.value) + e.after), d);
  }

  lemma NeutralKey(key: Option<Key>, d: nat)
    requires key.Some? ==>
      IsStr(key.value.chars) && IsBlank(key.value.beforeColon) && IsBlank(key.value.afterColon)
    ensures Neutral(PrintKey(key), d)
  {
    match key
    case None =>
      NeutralPlain([], d);
    case Some(k) =>
      var tail := [COLON] + k.afterColon;
      NeutralString(k.chars, d);
      NeutralPlain(k.beforeColon, d);
      NeutralPlain(tail, d);
      NeutralConcat(k.beforeColon, tail, d);
      NeutralConcat(PrintStr(k.chars), k.beforeColon + tail, d);
  }

  // ---- Completeness ---------------------------------------------------------

  lemma ContainerIsSelfClosed(v: Value)
    requires IsContainer(v)
    ensures SelfClosed(Print(v))
  {
    var inside := if v.EmptyBox? then v.pad else PrintBody(v.body);
    if v.EmptyBox? {
      NeutralPlain(v.pad, 1);
    } else {
      NeutralBody(v.body, v.isObject, 1);
    }
    WrapDepths(v.isObject, inside, 0);
    var t := Print(v);
    assert t[..|t|] == t;
  }

  /**
   Every array or object text of RFC 8259 is recovered exactly, with any text
   after it, if and only if the prose before it is idle.
   */
  lemma ContainerRecoveredIff(p: Text, v: Value, q: Text)
    requires IsContainer(v)
    ensures FirstClosed(p + Print(v) + q) == Some(Span(|p|, |p| + |Print(v)|)) <==> Idle(p)
  {
    ContainerIsSelfClosed(v);
    ExtractedIffPrefixIdle(p, Print(v), q);
  }

  /** The common case: prose that holds no quote and no opening bracket. */
  lemma ContainerRecoveredFromProse(p: Text, v: Value, q: Text)
    requires forall b :: b in p ==> b != QUOTE && !IsOpener(b)
    requires IsContainer(v)
    ensures FirstClosed(p + Print(v) + q) == Some(Span(|p|, |p| + |Print(v)|))
    ensures (p + Print(v) + q)[|p|..|p| + |Print(v)|] == Print(v)
  {
    QuietProseIsIdle(p);
    ContainerRecoveredIff(p, v, q);
  }
}
