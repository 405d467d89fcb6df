/**
 The cascade that turns a model's reply into a value: parse the trimmed reply,
 else the first fenced block, else the first closed array or object
 (`parse_json_from_model`, `extract_fenced_json`, `parse_writer_ops_from_model`).
 The JSON parser itself is a parameter: any partial function on texts.
 */
module JsonRecovery {
  import opened Wrappers
  import opened Texts
  import opened JsonScan
  import opened JsonText

  // ---- Trimming -------------------------------------------------------------

  // The UTF-8 forms of the characters in Unicode's White_Space set, by length.

  predicate Space1(a: Byte) { 0x09 <= a <= 0x0D || a == 0x20 }

  predicate Space2(a: Byte, b: Byte) { a == 0xC2 && (b == 0x85 || b == 0xA0) }

  predicate Space3(a: Byte, b: Byte, c: Byte) {
    || (a == 0xE1 && b == 0x9A && c == 0x80)
    || (a == 0xE2 && b == 0x80 && (0x80 <= c <= 0x8A || c == 0xA8 || c == 0xA9 || c == 0xAF))
    || (a == 0xE2 && b == 0x81 && c == 0x9F)
    || (a == 0xE3 && b == 0x80 && c == 0x80)
  }

  /** How many bytes the white space character at the start takes, 0 if there is none. */
  function SpaceAtStart(s: Text): (n: nat)
    ensures n <= |s|
    ensures forall i :: 0 <= i < n ==> IsPlain(s[i])
  {
    if |s| >= 1 && Space1(s[0]) then 1
    else if |s| >= 2 && Space2(s[0], s[1]) then 2
    else if |s| >= 3 && Space3(s[0], s[1], s[2]) then 3
    else 0
  }

  function SpaceAtEnd(s: Text): (n: nat)
    ensures n <= |s|
    ensures forall i :: |s| - n <= i < |s| ==> IsPlain(s[i])
  {
    var k := |s|;
    if k >= 1 && Space1(s[k - 1]) then 1
    else if k >= 2 && Space2(s[k - 2], s[k - 1]) then 2
    else if k >= 3 && Space3(s[k - 3], s[k - 2], s[k - 1]) then 3
    else 0
  }

  function TrimStart(s: Text): Text
    decreases |s|
  {
    var n := SpaceAtStart(s);
    if n == 0 then s else TrimStart(s[n..])
  }

  function TrimEnd(s: Text): Text
    decreases |s|
  {
    var n := SpaceAtEnd(s);
    if n == 0 then s else TrimEnd(s[..|s| - n])
  }

  function Trim(s: Text): Text { TrimEnd(TrimStart(s)) }

  /** Trimming stops at a bracket; what it drops before it is plain. */
  lemma {:induction false} TrimStartKeeps(p: Text, x: Text) returns (k: nat)
    requires x != [] && !IsPlain(x[0])
    ensures k <= |p| && AllPlain(p[..k]) && TrimStart(p + x) == p[k..] + x
    decreases |p|
  {
    var s := p + x;
    var n := SpaceAtStart(s);
    if n == 0 {
      return 0;
    }
    assert s[|p|] == x[0];
    assert s[n..] == p[n..] + x;
    var m := TrimStartKeeps(p[n..], x);
    k := n + m;
    assert p[..k] == p[..n] + p[n..][..m];
    assert p[n..][m..] == p[k..];
    forall i: nat | i < n ensures IsPlain(p[i]) {
      assert s[i] == p[i];
    }
  }

  lemma {:induction false} TrimEndKeeps(x: Text, q: Text) returns (k: nat)
    requires x != [] && !IsPlain(x[|x| - 1])
    ensures k <= |q| && TrimEnd(x + q) == x + q[..k]
    decreases |q|
  {
    var s := x + q;
    var n := SpaceAtEnd(s);
    if n == 0 {
      k := |q|;
      assert q[..k] == q;
      return;
    }
    assert s[|x| - 1] == x[|x| - 1];
    assert s[..|s| - n] == x + q[..|q| - n];
    k := TrimEndKeeps(x, q[..|q| - n]);
    assert q[..|q| - n][..k] == q[..k];
  }

  lemma DroppingPlainKeepsIdle(p: Text, k: nat)
    requires k <= |p| && AllPlain(p[..k]) && Idle(p)
    ensures Idle(p[k..])
  {
    var a, b := p[..k], p[k..];
    assert p == a + b;
    AfterPlain(Out(0), a);
    AfterConcat(Out(0), a, b);
    forall l: nat, h: nat | h < |b| + 1 ensures !Closes(b, l, h) {
      forall i: nat | i <= |b| ensures At(p, k + i) == At(b, i) {
        AtShift(a, b, i);
      }
      if Closes(b, l, h) {
        forall i: nat | k + l < i < k + h ensures At(p, i).depth > 0 {
          assert At(p, k + (i - k)) == At(b, i - k);
        }
        assert Closes(p, k + l, k + h);
      }
    }
  }

  // ---- Fenced blocks --------------------------------------------------------

  const FENCE: Text := [0x60, 0x60, 0x60]
  const JSON_TAG: Text := [0x6A, 0x73, 0x6F, 0x6E]

  predicate IsLineBreak(b: Byte) { b == 0x0A || b == 0x0D }

  function DropLineBreaks(s: Text): Text {
    if s != [] && IsLineBreak(s[0]) then DropLineBreaks(s[1..]) else s
  }

  function FromLineBreak(s: Text): Option<Text> {
    if s == [] then None else if IsLineBreak(s[0]) then Some(s) else FromLineBreak(s[1..])
  }

  /** What follows an opening fence, its `json` tag or info line dropped. */
  function FenceContent(after: Text): Option<Text> {
    if JSON_TAG <= after then Some(DropLineBreaks(after[4..]))
    else if after != [] && IsLineBreak(after[0]) then Some(DropLineBreaks(after))
    else
      match FromLineBreak(after)
      case None => None
      case Some(rest) => Some(DropLineBreaks(rest))
  }

  function UpToFence(body: Text): Option<Text> {
    match IndexOf(body, FENCE)
    case None => None
    case Some(end) => Some(Trim(body[..end]))
  }

  function ExtractFenced(s: Text): Option<Text> {
    match IndexOf(s, FENCE)
    case None => None
    case Some(start) =>
      match FenceContent(s[start + 3..])
      case None => None
      case Some(body) => UpToFence(body)
  }

  // ---- The cascade ----------------------------------------------------------

  datatype RecoveryError = EmptyReply | Unparseable(len: nat)

  /** The first of the three stages whose text parses. */
  ghost function Choose<T>(parse: Text -> Option<T>, trimmed: Text, fenced: Option<Text>, closed: Option<Text>)
    : Result<T, RecoveryError>
  {
    if parse(trimmed).Some? then Ok(parse(trimmed).value)
    else if fenced.Some? && parse(fenced.value).Some? then Ok(parse(fenced.value).value)
    else if closed.Some? && parse(closed.value).Some? then Ok(parse(closed.value).value)
    else Err(Unparseable(|trimmed|))
  }

  ghost function ClosedText(s: Text): Option<Text> {
    match FirstClosed(s)
    case None => None
    case Some(span) => Some(s[span.lo..span.hi])
  }

  ghost function Recover<T>(parse: Text -> Option<T>, raw: Text): Result<T, RecoveryError> {
    var trimmed := Trim(raw);
    if trimmed == [] then Err(EmptyReply)
    else Choose(parse, trimmed, ExtractFenced(trimmed), ClosedText(trimmed))
  }

  lemma {:induction false} TrimShortens(s: Text)
    ensures exists a: nat, b: nat :: a <= b <= |s| && Trim(s) == s[a..b]
  {
    var a := TrimStartSlice(s);
    var b := TrimEndSlice(s[a..]);
    SliceOfSlice(s, a, |s|, 0, b);
  }

  lemma {:induction false} TrimStartSlice(s: Text) returns (a: nat)
    ensures a <= |s| && TrimStart(s) == s[a..]
    decreases |s|
  {
    var n := SpaceAtStart(s);
    if n == 0 {
      return 0;
    }
    var m := TrimStartSlice(s[n..]);
    a := n + m;
    assert s[n..][m..] == s[a..];
  }

  lemma {:induction false} TrimEndSlice(s: Text) returns (b: nat)
    ensures b <= |s| && TrimEnd(s) == s[..b]
    decreases |s|
  {
    var n := SpaceAtEnd(s);
    if n == 0 {
      b := |s|;
      assert s[..b] == s;
      return;
    }
    b := TrimEndSlice(s[..|s| - n]);
    assert s[..|s| - n][..b] == s[..b];
  }

  method ParseJsonFromModel<T>(parse: Text -> Option<T>, raw: Text) returns (r: Result<T, RecoveryError>)
    requires |raw| < 0x8000_0000
    ensures r == Recover(parse, raw)
  {
    var trimmed := Trim(raw);
    TrimShortens(raw);
    if trimmed == [] {
      return Err(EmptyReply);
    }
    var direct := parse(trimmed);
    if direct.Some? {
      return Ok(direct.value);
    }
    var fenced := ExtractFenced(trimmed);
    if fenced.Some? {
      var inner := parse(fenced.value);
      if inner.Some? {
        return Ok(inner.value);
      }
    }
    var closed := ExtractJsonSubstring(trimmed);
    if closed.Some? {
      var slice := parse(trimmed[closed.value.lo..closed.value.hi]);
      if slice.Some? {
        return Ok(slice.value);
      }
    }
    return Err(Unparseable(|trimmed|));
  }

  /** An array of operations, or one bare operation as an array of one. */
  ghost function RecoverOps<Op>(parseOps: Text -> Option<seq<Op>>, parseOp: Text -> Option<Op>, raw: Text)
    : Result<seq<Op>, RecoveryError>
  {
    match Recover(parseOps, raw)
    case Ok(ops) => Ok(ops)
    case Err(e) =>
      match Recover(parseOp, raw)
      case Ok(op) => Ok([op])
      case Err(_) => Err(e)
  }

  method ParseWriterOpsFromModel<Op>(parseOps: Text -> Option<seq<Op>>, parseOp: Text -> Option<Op>, raw: Text)
    returns (r: Result<seq<Op>, RecoveryError>)
    requires |raw| < 0x8000_0000
    ensures r == RecoverOps(parseOps, parseOp, raw)
  {
    var ops := ParseJsonFromModel(parseOps, raw);
    if ops.Ok? {
      return ops;
    }
    var op := ParseJsonFromModel(parseOp, raw);
    r := if op.Ok? then Ok([op.value]) else ops;
  }

  // ---- What the cascade promises --------------------------------------------

  ghost predicate SliceOf(t: Text, s: Text) {
    exists a: nat, b: nat :: a <= b <= |s| && t == s[a..b]
  }

  lemma SliceTrans(t: Text, u: Text, s: Text)
    requires SliceOf(t, u) && SliceOf(u, s)
    ensures SliceOf(t, s)
  {
    var a: nat, b: nat :| a <= b <= |u| && t == u[a..b];
    var c: nat, d: nat :| c <= d <= |s| && u == s[c..d];
    SliceOfSlice(s, c, d, a, b);
  }

  lemma SliceRest(s: Text, k: nat)
    requires k <= |s|
    ensures SliceOf(s[k..], s) && SliceOf(s[..k], s)
  {
    assert s[k..] == s[k..|s|] && s[..k] == s[0..k];
  }

  lemma {:induction false} DropLineBreaksSlice(s: Text)
    ensures SliceOf(DropLineBreaks(s), s)
  {
    SliceRest(s, 0);
    assert s[0..] == s;
    if s != [] && IsLineBreak(s[0]) {
      DropLineBreaksSlice(s[1..]);
      SliceRest(s, 1);
      SliceTrans(DropLineBreaks(s[1..]), s[1..], s);
    }
  }

  lemma {:induction false} FromLineBreakSlice(s: Text)
    requires FromLineBreak(s).Some?
    ensures SliceOf(FromLineBreak(s).value, s)
  {
    if IsLineBreak(s[0]) {
      SliceRest(s, 0);
      assert s[0..] == s;
    } else {
      FromLineBreakSlice(s[1..]);
      SliceRest(s, 1);
      SliceTrans(FromLineBreak(s).value, s[1..], s);
    }
  }

  lemma ContentSlice(after: Text)
    requires FenceContent(after).Some?
    ensures SliceOf(FenceContent(after).value, after)
  {
    var raw :=
      if JSON_TAG <= after then after[4..]
      else if after != [] && IsLineBreak(after[0]) then after
      else FromLineBreak(after).value;
    assert SliceOf(raw, after) by {
      SliceRest(after, 0);
      assert after[0..] == after;
      if JSON_TAG <= after {
        SliceRest(after, 4);
      } else if !(after != [] && IsLineBreak(after[0])) {
        FromLineBreakSlice(after);
      }
    }
    DropLineBreaksSlice(raw);
    SliceTrans(DropLineBreaks(raw), raw, after);
  }

  lemma UpToFenceSlice(body: Text)
    requires UpToFence(body).Some?
    ensures SliceOf(UpToFence(body).value, body)
  {
    var end := IndexOf(body, FENCE).value;
    SliceRest(body, end);
    TrimShortens(body[..end]);
    SliceTrans(Trim(body[..end]), body[..end], body);
  }

  lemma FencedSlice(s: Text)
    requires ExtractFenced(s).Some?
    ensures SliceOf(ExtractFenced(s).value, s)
  {
    var after := s[IndexOf(s, FENCE).value + 3..];
    var body := FenceContent(after).value;
    SliceRest(s, IndexOf(s, FENCE).value + 3);
    ContentSlice(after);
    UpToFenceSlice(body);
    SliceTrans(UpToFence(body).value, body, after);
    SliceTrans(UpToFence(body).value, after, s);
  }

  lemma ClosedSlice(s: Text)
    requires ClosedText(s).Some?
    ensures SliceOf(ClosedText(s).value, s)
  {
  }

  lemma ChosenPiece<T>(parse: Text -> Option<T>, trimmed: Text, fenced: Option<Text>, closed: Option<Text>)
    returns (t: Text)
    requires Choose(parse, trimmed, fenced, closed).Ok?
    ensures t == trimmed || fenced == Some(t) || closed == Some(t)
    ensures parse(t) == Some(Choose(parse, trimmed, fenced, closed).value)
  {
    t := if parse(trimmed).Some? then trimmed
         else if fenced.Some? && parse(fenced.value).Some? then fenced.value
         else closed.value;
  }

  /** Nothing is made up: a recovered value is the parse of a piece of the reply. */
  lemma RecoveredFromTheReply<T>(parse: Text -> Option<T>, raw: Text)
    requires Recover(parse, raw).Ok?
    ensures exists t :: SliceOf(t, raw) && parse(t) == Some(Recover(parse, raw).value)
  {
    var trimmed := Trim(raw);
    TrimShortens(raw);
    var t := ChosenPiece(parse, trimmed, ExtractFenced(trimmed), ClosedText(trimmed));
    PieceIsFromReply(t, trimmed);
    SliceTrans(t, trimmed, raw);
  }

  lemma PieceIsFromReply(t: Text, trimmed: Text)
    requires t == trimmed || ExtractFenced(trimmed) == Some(t) || ClosedText(trimmed) == Some(t)
    ensures SliceOf(t, trimmed)
  {
    if t == trimmed {
      SliceRest(trimmed, 0);
      assert trimmed[0..] == trimmed;
    } else if ExtractFenced(trimmed) == Some(t) {
      FencedSlice(trimmed);
    } else {
      ClosedSlice(trimmed);
    }
  }

  lemma ContainerEnds(v: Value)
    requires IsContainer(v)
    ensures var t := Print(v); t != [] && !IsPlain(t[0]) && !IsPlain(t[|t| - 1])
  {
  }

  /** Trimming a reply around a container shortens only the prose. */
  lemma TrimAroundContainer(p: Text, v: Value, q: Text) returns (p': Text, q': Text)
    requires IsContainer(v)
    ensures Trim(p + Print(v) + q) == p' + Print(v) + q'
    ensures Idle(p) ==> Idle(p')
    ensures exists k: nat :: k <= |p| && AllPlain(p[..k]) && p' == p[k..]
  {
    var t := Print(v);
    ContainerEnds(v);
    assert p + t + q == p + (t + q);
    var k := TrimStartKeeps(p, t + q);
    p' := p[k..];
    assert p' + (t + q) == (p' + t) + q;
    var m := TrimEndKeeps(p' + t, q);
    q' := q[..m];
    if Idle(p) {
      DroppingPlainKeepsIdle(p, k);
    }
  }

  /**
   An array or object wrapped in idle prose is recovered whenever the earlier
   stages yield nothing, even when a fence cuts it short: three backquotes
   inside one of its strings do not hide it.
   */
  lemma RecoveredFromProse<T>(parse: Text -> Option<T>, p: Text, v: Value, q: Text)
    requires IsContainer(v) && Idle(p) && parse(Print(v)).Some?
    requires var t := Trim(p + Print(v) + q);
      && parse(t).None?
      && (ExtractFenced(t).Some? ==> parse(ExtractFenced(t).value).None?)
    ensures Recover(parse, p + Print(v) + q) == Ok(parse(Print(v)).value)
  {
    ClosedIsTheContainer(p, v, q);
  }

  /** The first of the texts tried before `last` that parses, if any, gives what `last` gives. */
  ghost predicate Agrees<T(!new)>(parse: Text -> Option<T>, trimmed: Text, fenced: Option<Text>, last: Text) {
    if parse(trimmed).Some? then parse(trimmed) == parse(last)
    else fenced.Some? && parse(fenced.value).Some? ==> parse(fenced.value) == parse(last)
  }

  /**
   A bare object in idle prose, where none of the three texts tried parses as a list:
   it becomes a list of one if and only if what is tried before it parses to the same
   operation or not at all.
   */
  lemma BareObjectBecomesOneOp<Op(!new)>(parseOps: Text -> Option<seq<Op>>, parseOp: Text -> Option<Op>,
                                         p: Text, v: Value, q: Text)
    requires IsContainer(v) && Idle(p) && parseOp(Print(v)).Some?
    requires var t := Trim(p + Print(v) + q);
      && parseOps(t).None? && parseOps(Print(v)).None?
      && (ExtractFenced(t).Some? ==> parseOps(ExtractFenced(t).value).None?)
    ensures var t := Trim(p + Print(v) + q);
      RecoverOps(parseOps, parseOp, p + Print(v) + q) == Ok([parseOp(Print(v)).value]) <==>
        Agrees(parseOp, t, ExtractFenced(t), Print(v))
  {
    ClosedIsTheContainer(p, v, q);
  }

  lemma ClosedIsTheContainer(p: Text, v: Value, q: Text)
    requires IsContainer(v) && Idle(p)
    ensures var t := Trim(p + Print(v) + q); t != [] && ClosedText(t) == Some(Print(v))
  {
    var p', q' := TrimAroundContainer(p, v, q);
    ContainerRecoveredIff(p', v, q');
    ContainerEnds(v);
    assert (p' + Print(v) + q')[|p'|..|p'| + |Print(v)|] == Print(v);
  }

  lemma OneBlankAtStart(s: Text)
    requires s != [] && IsBlank([s[0]])
    ensures SpaceAtStart(s) == 1
  {
    assert s[0] in [s[0]];
  }

  lemma OneBlankAtEnd(s: Text)
    requires s != [] && IsBlank([s[|s| - 1]])
    ensures SpaceAtEnd(s) == 1
  {
    assert s[|s| - 1] in [s[|s| - 1]];
  }

  lemma {:induction false} TrimDropsBlank(pad: Text, x: Text)
    requires IsBlank(pad) && x != [] && !IsPlain(x[0])
    ensures TrimStart(pad + x) == x
  {
    if pad == [] {
      assert pad + x == x;
      var k := TrimStartKeeps([], x);
      assert [] + x == x;
    } else {
      assert pad[0] in pad;
      OneBlankAtStart(pad + x);
      assert (pad + x)[1..] == pad[1..] + x;
      assert forall b :: b in pad[1..] ==> b in pad;
      TrimDropsBlank(pad[1..], x);
    }
  }

  lemma {:induction false} TrimDropsBlankEnd(x: Text, pad: Text)
    requires IsBlank(pad) && x != [] && !IsPlain(x[|x| - 1])
    ensures TrimEnd(x + pad) == x
    decreases |pad|
  {
    if pad == [] {
      var k := TrimEndKeeps(x, []);
      assert x + [] == x;
    } else {
      var last := |pad| - 1;
      assert pad[last] in pad;
      OneBlankAtEnd(x + pad);
      assert (x + pad)[..|x + pad| - 1] == x + pad[..last];
      assert forall b :: b in pad[..last] ==> b in pad;
      TrimDropsBlankEnd(x, pad[..last]);
    }
  }

  /** Round trip of a bare reply: blanks around the printed container are dropped. */
  lemma RecoveredDirectly<T>(parse: Text -> Option<T>, pad: Text, v: Value, pad': Text)
    requires IsContainer(v) && IsBlank(pad) && IsBlank(pad') && parse(Print(v)).Some?
    ensures Recover(parse, pad + Print(v) + pad') == Ok(parse(Print(v)).value)
  {
    ContainerEnds(v);
    assert pad + Print(v) + pad' == pad + (Print(v) + pad');
    TrimDropsBlank(pad, Print(v) + pad');
    TrimDropsBlankEnd(Print(v), pad');
  }

  // ---- Recovered lists ----------------------------------------------------------------------

  /** What parses whole is the answer, whatever fence or container it holds. */
  lemma WholeReplyWins<T>(parse: Text -> Option<T>, raw: Text)
    requires Trim(raw) != [] && parse(Trim(raw)).Some?
    ensures Recover(parse, raw) == Ok(parse(Trim(raw)).value)
  {
  }

  /** A bare list comes back whole, blanks around it or not. */
  lemma ListRecoveredDirectly<Op>(parseOps: Text -> Option<seq<Op>>, parseOp: Text -> Option<Op>,
                                  pad: Text, v: Value, pad': Text)
    requires IsContainer(v) && IsBlank(pad) && IsBlank(pad') && parseOps(Print(v)).Some?
    ensures RecoverOps(parseOps, parseOp, pad + Print(v) + pad') == Ok(parseOps(Print(v)).value)
  {
    RecoveredDirectly(parseOps, pad, v, pad');
  }

  /** So does a list in idle prose, unless an earlier text parses as another list. */
  lemma ListRecoveredFromProse<Op(!new)>(parseOps: Text -> Option<seq<Op>>, parseOp: Text -> Option<Op>,
                                         p: Text, v: Value, q: Text)
    requires IsContainer(v) && Idle(p) && parseOps(Print(v)).Some?
    ensures var t := Trim(p + Print(v) + q);
      RecoverOps(parseOps, parseOp, p + Print(v) + q) == Ok(parseOps(Print(v)).value) <==>
        Agrees(parseOps, t, ExtractFenced(t), Print(v))
  {
    ClosedIsTheContainer(p, v, q);
  }

  /**
   Nothing is recovered exactly when none of the texts tried parses, neither as a list
   nor as one operation; an empty reply is told apart.
   */
  lemma NothingRecoveredIff<Op>(parseOps: Text -> Option<seq<Op>>, parseOp: Text -> Option<Op>, raw: Text)
    ensures var t := Trim(raw);
      && (RecoverOps(parseOps, parseOp, raw).Err? <==>
            t == [] || forall x :: (x == t || ExtractFenced(t) == Some(x) || ClosedText(t) == Some(x)) ==>
              parseOps(x).None? && parseOp(x).None?)
      && (RecoverOps(parseOps, parseOp, raw) == Err(EmptyReply) <==> t == [])
      && (t != [] && RecoverOps(parseOps, parseOp, raw).Err? ==>
            RecoverOps(parseOps, parseOp, raw) == Err(Unparseable(|t|)))
  {
  }

  // ---- Fenced replies ---------------------------------------------------------------------

  /** What follows an opening fence: the `json` tag, or any other info line, perhaps empty. */
  datatype Opening = Tagged(breaks: Text) | Untagged(line: Text, breaks: Text)

  predicate Opens(o: Opening) {
    && (forall b :: b in o.breaks ==> IsLineBreak(b))
    && (o.Untagged? ==> o.breaks != [] && !(JSON_TAG <= o.line) && forall b :: b in o.line ==> !IsLineBreak(b))
  }

  function OpeningText(o: Opening): Text {
    match o
    case Tagged(breaks) => JSON_TAG + breaks
    case Untagged(line, breaks) => line + breaks
  }

  /** Prose, a fence and its opening, a text with blanks after it, the closing fence, more prose. */
  function FencedReply(p: Text, o: Opening, t: Text, pad: Text, q: Text): Text {
    p + (FENCE + (OpeningText(o) + FencedBody(t, pad, q)))
  }

  function FencedBody(t: Text, pad: Text, q: Text): Text { t + (pad + (FENCE + q)) }

  /**
   Round trip of a fenced reply: under a `json` tag, a bare fence or any other info
   line, the block up to the next fence is exactly the printed container, provided
   neither it nor the prose before holds a fence of its own.
   */
  lemma FencedBlockIsTheContainer(p: Text, o: Opening, v: Value, pad: Text, q: Text)
    requires IsContainer(v) && Opens(o) && IsBlank(pad)
    requires Free(p + FENCE[..2], FENCE) && Free(Print(v), FENCE)
    ensures ExtractFenced(FencedReply(p, o, Print(v), pad, q)) == Some(Print(v))
  {
    var t, body := Print(v), FencedBody(Print(v), pad, q);
    ContainerEnds(v);
    assert body[0] == t[0];
    FirstOccurrence(p, FENCE, OpeningText(o) + body);
    assert FencedReply(p, o, t, pad, q)[|p| + 3..] == OpeningText(o) + body;
    ContentAfterOpening(o, body);
    ClosingFence(t, pad, q);
    TrimToText(t, pad);
    assert UpToFence(body) == Some(t);
  }

  lemma TrimToText(t: Text, pad: Text)
    requires t != [] && !IsPlain(t[0]) && !IsPlain(t[|t| - 1]) && IsBlank(pad)
    ensures Trim(t + pad) == t
  {
    TrimDropsBlank([], t + pad);
    assert [] + (t + pad) == t + pad;
    TrimDropsBlankEnd(t, pad);
  }

  /** Each of the three branches for what follows the fence leaves the body. */
  lemma ContentAfterOpening(o: Opening, body: Text)
    requires Opens(o) && body != [] && !IsLineBreak(body[0])
    ensures FenceContent(OpeningText(o) + body) == Some(body)
  {
    DropsBreaks(o.breaks, body);
    match o
    case Tagged(breaks) =>
      assert (OpeningText(o) + body)[4..] == breaks + body;
    case Untagged(line, breaks) =>
      assert breaks[0] in breaks && (breaks + body)[0] == breaks[0];
      ContentAfterLine(line, breaks + body);
      assert OpeningText(o) + body == line + (breaks + body);
  }

  lemma ContentAfterLine(line: Text, rest: Text)
    requires !(JSON_TAG <= line) && rest != [] && IsLineBreak(rest[0]) && forall b :: b in line ==> !IsLineBreak(b)
    ensures FenceContent(line + rest) == Some(DropLineBreaks(rest))
  {
    NotTagged(line, rest);
    SkipsLine(line, rest);
    if line == [] {
      assert line + rest == rest;
    } else {
      assert line[0] in line && (line + rest)[0] == line[0];
    }
  }

  lemma {:induction false} DropsBreaks(breaks: Text, body: Text)
    requires body != [] && !IsLineBreak(body[0]) && forall b :: b in breaks ==> IsLineBreak(b)
    ensures DropLineBreaks(breaks + body) == body
  {
    if breaks == [] {
      assert breaks + body == body;
    } else {
      assert breaks[0] in breaks && (breaks + body)[1..] == breaks[1..] + body;
      DropsBreaks(breaks[1..], body);
    }
  }

  lemma NotTagged(line: Text, rest: Text)
    requires !(JSON_TAG <= line) && rest != [] && IsLineBreak(rest[0])
    ensures !(JSON_TAG <= line + rest)
  {
    if |line| >= 4 {
      assert (line + rest)[..4] == line[..4];
    } else {
      assert (line + rest)[|line|] == rest[0];
    }
  }

  lemma {:induction false} SkipsLine(line: Text, rest: Text)
    requires rest != [] && IsLineBreak(rest[0]) && forall b :: b in line ==> !IsLineBreak(b)
    ensures FromLineBreak(line + rest) == Some(rest)
  {
    if line == [] {
      assert line + rest == rest;
    } else {
      assert line[0] in line && (line + rest)[1..] == line[1..] + rest;
      SkipsLine(line[1..], rest);
    }
  }

  lemma ClosingFence(t: Text, pad: Text, q: Text)
    requires Free(t, FENCE) && IsBlank(pad) && t != [] && t[|t| - 1] != 0x60
    ensures var body := FencedBody(t, pad, q);
      IndexOf(body, FENCE) == Some(|t + pad|) && body[..|t + pad|] == t + pad
  {
    FreeBeforeFence(t, pad);
    FirstOccurrence(t + pad, FENCE, q);
    assert t + (pad + (FENCE + q)) == (t + pad) + (FENCE + q);
  }

  /** No fence starts before the closing one. */
  lemma FreeBeforeFence(t: Text, pad: Text)
    requires Free(t, FENCE) && IsBlank(pad) && t != [] && t[|t| - 1] != 0x60
    ensures Free((t + pad) + FENCE[..2], FENCE)
  {
    var u := (t + pad) + FENCE[..2];
    forall i: nat ensures !OccursAt(u, FENCE, i) {
      assert !OccursAt(t, FENCE, i);
      if i + 3 <= |t| {
        assert u[i..i + 3] == t[i..i + 3];
      } else if i + 3 <= |u| {
        var k := if i < |t| then |t| - 1 else i;
        assert i <= k < i + 3 && u[i..i + 3][k - i] == u[k];
        assert k >= |t| ==> u[k] == pad[k - |t|] && pad[k - |t|] in pad;
      }
    }
  }

  /** A fenced reply whose text parses is recovered even though the whole does not parse. */
  lemma RecoveredFromFence<T>(parse: Text -> Option<T>, raw: Text, p: Text, o: Opening, v: Value, pad: Text, q: Text)
    requires IsContainer(v) && Opens(o) && IsBlank(pad) && parse(Print(v)).Some?
    requires Free(p + FENCE[..2], FENCE) && Free(Print(v), FENCE)
    requires Trim(raw) == FencedReply(p, o, Print(v), pad, q) && parse(Trim(raw)).None?
    ensures Recover(parse, raw) == Ok(parse(Print(v)).value)
  {
    FencedBlockIsTheContainer(p, o, v, pad, q);
    assert |Trim(raw)| > 0;
  }

  /** A fenced list comes back whole unless the whole reply parses as a list itself. */
  lemma ListRecoveredFromFence<Op>(parseOps: Text -> Option<seq<Op>>, parseOp: Text -> Option<Op>, raw: Text,
                                   p: Text, o: Opening, v: Value, pad: Text, q: Text)
    requires IsContainer(v) && Opens(o) && IsBlank(pad) && parseOps(Print(v)).Some?
    requires Free(p + FENCE[..2], FENCE) && Free(Print(v), FENCE)
    requires Trim(raw) == FencedReply(p, o, Print(v), pad, q) && parseOps(Trim(raw)).None?
    ensures RecoverOps(parseOps, parseOp, raw) == Ok(parseOps(Print(v)).value)
  {
    RecoveredFromFence(parseOps, raw, p, o, v, pad, q);
  }
}
