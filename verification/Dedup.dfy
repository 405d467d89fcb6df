/**
 The identity of a job intent (`job_dedup_key`): the text its deduplication hash is
 computed from. Inputs are a bag: their order does not matter. The text tells two
 intents apart whenever their kinds hold no line break and their input ids neither
 a line break nor a comma; without that, each of the three can make different
 intents one.
 */
module Dedup {
  import opened Wrappers
  import opened Sorting
  import opened Splitting

  datatype EndpointKind = Memory | Entity | Artifact | Span

  predicate Versioned(k: EndpointKind) { k.Memory? || k.Entity? }

  datatype Input = Input(kind: EndpointKind, id: string, revision: Option<nat>)

  /** What of an input is part of the identity: no revision counts as revision 0. */
  datatype Pin = Pin(kind: EndpointKind, id: string, revision: nat)

  function PinOf(i: Input): Pin {
    Pin(i.kind, i.id, if i.revision.Some? then i.revision.value else 0)
  }

  function Pins(inputs: seq<Input>): (r: seq<Pin>)
    ensures |r| == |inputs|
  {
    if inputs == [] then [] else [PinOf(inputs[0])] + Pins(inputs[1..])
  }

  // ---- The text ---------------------------------------------------------------------

  const HEADER := "nomiso.job-dedup.v0"

  function KindName(k: EndpointKind): string {
    match k
    case Memory => "memory"
    case Entity => "entity"
    case Artifact => "artifact"
    case Span => "span"
  }

  function Digit(n: nat): char
    requires n < 10
  {
    ('0' as int + n) as char
  }

  function Decimal(n: nat): string {
    if n < 10 then [Digit(n)] else Decimal(n / 10) + [Digit(n % 10)]
  }

  function PinText(p: Pin): string { KindName(p.kind) + ":" + (p.id + ":" + Decimal(p.revision)) }

  function PinTexts(pins: seq<Pin>): seq<string> {
    if pins == [] then [] else [PinText(pins[0])] + PinTexts(pins[1..])
  }

  function PinsText(pins: seq<Pin>): string { Join(Sort(PinTexts(pins), TextOrder()), ",") }

  /** The material of the hash; `composition` is the canonical JSON text. */
  function Material(scope: string, kind: string, inputs: seq<Input>, composition: string, hint: string): string {
    Join([HEADER, scope, kind, PinsText(Pins(inputs)), composition, hint], "\n")
  }

  // ---- Order does not matter ------------------------------------------------------------

  lemma {:induction false} PinTextsConcat(a: seq<Pin>, b: seq<Pin>)
    ensures PinTexts(a + b) == PinTexts(a) + PinTexts(b)
  {
    if a == [] {
      assert a + b == b;
    } else {
      assert (a + b)[1..] == a[1..] + b;
      PinTextsConcat(a[1..], b);
    }
  }

  /** Taking pin `j` out takes it out of the bag, and its text out of the bag of texts. */
  lemma WithoutPin(b: seq<Pin>, j: nat) returns (less: seq<Pin>)
    requires j < |b|
    ensures |less| == |b| - 1
    ensures multiset(b) == multiset(less) + multiset{b[j]}
    ensures multiset(PinTexts(b)) == multiset(PinTexts(less)) + multiset{PinText(b[j])}
  {
    var before, after := b[..j], b[j + 1..];
    less := before + after;
    assert b == before + ([b[j]] + after);
    PinTextsConcat(before, after);
    PinTextsConcat(before, [b[j]] + after);
    ConsTexts(b[j], after);
  }

  lemma ConsTexts(p: Pin, rest: seq<Pin>)
    ensures PinTexts([p] + rest) == [PinText(p)] + PinTexts(rest)
  {
    assert ([p] + rest)[1..] == rest;
  }

  lemma InBag<T>(s: seq<T>, e: T) returns (j: nat)
    requires e in multiset(s)
    ensures j < |s| && s[j] == e
  {
    j :| 0 <= j < |s| && s[j] == e;
  }

  /** A bag of pins has a bag of texts. */
  lemma {:induction false} SameBagSameTexts(a: seq<Pin>, b: seq<Pin>)
    requires multiset(a) == multiset(b)
    ensures multiset(PinTexts(a)) == multiset(PinTexts(b))
    decreases |a|
  {
    assert |multiset(a)| == |a| && |multiset(b)| == |b|;
    if a != [] {
      var j := InBag(b, a[0]);
      var a' := WithoutPin(a, 0);
      var b' := WithoutPin(b, j);
      CancelOne(multiset(a'), multiset(b'), a[0]);
      SameBagSameTexts(a', b');
    }
  }

  /** Intents that differ in the order of their inputs have one identity. */
  lemma MaterialIgnoresInputOrder(scope: string, kind: string, a: seq<Input>, b: seq<Input>, composition: string,
                                  hint: string)
    requires multiset(Pins(a)) == multiset(Pins(b))
    ensures Material(scope, kind, a, composition, hint) == Material(scope, kind, b, composition, hint)
  {
    SameBagSameTexts(Pins(a), Pins(b));
    TextOrderIsTotal();
    SortIgnoresOrder(PinTexts(Pins(a)), PinTexts(Pins(b)), TextOrder());
  }

  /** An input without a revision is the same as one pinned at revision 0. */
  lemma NoRevisionIsZero(scope: string, kind: string, k: EndpointKind, id: string, rest: seq<Input>,
                         composition: string, hint: string)
    ensures Material(scope, kind, [Input(k, id, None)] + rest, composition, hint)
      == Material(scope, kind, [Input(k, id, Some(0))] + rest, composition, hint)
  {
    assert Pins([Input(k, id, None)] + rest) == [Pin(k, id, 0)] + Pins(rest);
    assert Pins([Input(k, id, Some(0))] + rest) == [Pin(k, id, 0)] + Pins(rest);
  }

  // ---- Different intents have different texts -----------------------------------------------

  predicate IsDigit(c: char) { '0' <= c <= '9' }

  lemma {:induction false} DecimalIsDigits(n: nat)
    ensures forall c :: c in Decimal(n) ==> IsDigit(c)
    ensures Decimal(n) != []
  {
    if n >= 10 {
      DecimalIsDigits(n / 10);
    }
  }

  lemma {:induction false} DecimalIsInjective(m: nat, n: nat)
    requires Decimal(m) == Decimal(n)
    ensures m == n
  {
    DecimalIsDigits(m / 10);
    DecimalIsDigits(n / 10);
    var s := Decimal(m);
    if m >= 10 && n >= 10 {
      assert s[..|s| - 1] == Decimal(m / 10) == Decimal(n / 10);
      assert s[|s| - 1] == Digit(m % 10) == Digit(n % 10);
      DecimalIsInjective(m / 10, n / 10);
    }
  }

  lemma PinPieces(p: Pin)
    ensures Split(PinText(p), ':') == [KindName(p.kind)] + (Split(p.id, ':') + [Decimal(p.revision)])
  {
    DecimalIsDigits(p.revision);
    SplitSnoc(p.id, ':', Decimal(p.revision));
    SplitCons(KindName(p.kind), ':', p.id + ":" + Decimal(p.revision));
  }

  /** Whatever the id holds, the text of a pin tells its kind, id and revision. */
  lemma PinTextIsInjective(p: Pin, q: Pin)
    requires PinText(p) == PinText(q)
    ensures p == q
  {
    PinPieces(p);
    PinPieces(q);
    var s, t := Split(p.id, ':') + [Decimal(p.revision)], Split(q.id, ':') + [Decimal(q.revision)];
    assert [KindName(p.kind)] + s == [KindName(q.kind)] + t;
    assert s == ([KindName(p.kind)] + s)[1..] && t == ([KindName(q.kind)] + t)[1..];
    assert KindName(p.kind) == ([KindName(p.kind)] + s)[0] == ([KindName(q.kind)] + t)[0] == KindName(q.kind);
    KindNameIsInjective(p.kind, q.kind);
    assert s[|s| - 1] == t[|t| - 1] && s[..|s| - 1] == Split(p.id, ':') && t[..|t| - 1] == Split(q.id, ':');
    DecimalIsInjective(p.revision, q.revision);
    JoinOfSplit(p.id, ':');
    JoinOfSplit(q.id, ':');
  }

  lemma KindNameIsInjective(a: EndpointKind, b: EndpointKind)
    requires KindName(a) == KindName(b)
    ensures a == b
  {
    assert |KindName(a)| == |KindName(b)|;
    assert KindName(a)[0] == KindName(b)[0];
  }

  lemma {:induction false} TextOfPin(pins: seq<Pin>, i: nat)
    requires i < |pins|
    ensures |PinTexts(pins)| == |pins| && PinTexts(pins)[i] == PinText(pins[i])
  {
    TextCount(pins);
    if i > 0 {
      TextOfPin(pins[1..], i - 1);
    }
  }

  lemma {:induction false} TextCount(pins: seq<Pin>)
    ensures |PinTexts(pins)| == |pins|
  {
    if pins != [] {
      TextCount(pins[1..]);
    }
  }

  /** A bag of texts comes from one bag of pins. */
  lemma {:induction false} SameTextsSameBag(a: seq<Pin>, b: seq<Pin>)
    requires multiset(PinTexts(a)) == multiset(PinTexts(b))
    ensures multiset(a) == multiset(b)
    decreases |a|
  {
    TextCount(a);
    TextCount(b);
    assert |multiset(PinTexts(a))| == |a| && |multiset(PinTexts(b))| == |b|;
    if a != [] {
      TextOfPin(a, 0);
      var j := InBag(PinTexts(b), PinText(a[0]));
      TextOfPin(b, j);
      PinTextIsInjective(a[0], b[j]);
      var a' := WithoutPin(a, 0);
      var b' := WithoutPin(b, j);
      CancelOne(multiset(PinTexts(a')), multiset(PinTexts(b')), PinText(a[0]));
      SameTextsSameBag(a', b');
    }
  }

  /** What the texts of an intent's inputs must not hold. */
  predicate PlainIds(inputs: seq<Input>) {
    forall i :: i in inputs ==> '\n' !in i.id && ',' !in i.id
  }

  lemma {:induction false} PlainPinTexts(inputs: seq<Input>)
    requires PlainIds(inputs)
    ensures forall t :: t in PinTexts(Pins(inputs)) ==> t != [] && '\n' !in t && ',' !in t
  {
    if inputs != [] {
      PlainPinTexts(inputs[1..]);
      assert inputs[0] in inputs;
      PlainPinText(PinOf(inputs[0]));
    }
  }

  lemma PlainPinText(p: Pin)
    requires '\n' !in p.id && ',' !in p.id
    ensures PinText(p) != [] && '\n' !in PinText(p) && ',' !in PinText(p)
  {
    DecimalIsDigits(p.revision);
    var tail := ":" + Decimal(p.revision);
    assert '\n' !in tail && ',' !in tail;
    assert '\n' !in KindName(p.kind) && ',' !in KindName(p.kind) && KindName(p.kind) != [];
    assert PinText(p) == KindName(p.kind) + ":" + p.id + tail;
  }

  lemma SortedTexts(inputs: seq<Input>)
    ensures multiset(Sort(PinTexts(Pins(inputs)), TextOrder())) == multiset(PinTexts(Pins(inputs)))
    ensures forall t :: t in Sort(PinTexts(Pins(inputs)), TextOrder()) <==> t in PinTexts(Pins(inputs))
  {
    var texts := PinTexts(Pins(inputs));
    TextOrderIsTotal();
    SortSorts(texts, TextOrder());
    forall t ensures t in Sort(texts, TextOrder()) <==> t in texts {
      assert t in Sort(texts, TextOrder()) <==> t in multiset(Sort(texts, TextOrder()));
      assert t in texts <==> t in multiset(texts);
    }
  }

  lemma PinsTextDetermines(a: seq<Input>, b: seq<Input>)
    requires PlainIds(a) && PlainIds(b) && PinsText(Pins(a)) == PinsText(Pins(b))
    ensures multiset(Pins(a)) == multiset(Pins(b))
  {
    var s, t := Sort(PinTexts(Pins(a)), TextOrder()), Sort(PinTexts(Pins(b)), TextOrder());
    PlainPinTexts(a);
    PlainPinTexts(b);
    SortedTexts(a);
    SortedTexts(b);
    ListDetermines(s, t);
    SameTextsSameBag(Pins(a), Pins(b));
  }

  lemma ListDetermines(s: seq<string>, t: seq<string>)
    requires forall x :: x in s ==> x != [] && ',' !in x
    requires forall x :: x in t ==> x != [] && ',' !in x
    requires Join(s, ",") == Join(t, ",")
    ensures s == t
  {
    if s != [] {
      SplitOfJoin(s, ',');
      assert s[0] in s;
    }
    if t != [] {
      SplitOfJoin(t, ',');
      assert t[0] in t;
    }
  }

  lemma MaterialPieces(scope: string, kind: string, ins: string, composition: string, hint: string)
    requires '\n' !in scope && '\n' !in kind && '\n' !in ins && '\n' !in composition
    ensures Split(Join([HEADER, scope, kind, ins, composition, hint], "\n"), '\n')
      == [HEADER, scope, kind, ins, composition] + Split(hint, '\n')
  {
    TextPieces([HEADER, scope, kind, ins, composition], hint);
    assert [HEADER, scope, kind, ins, composition] + [hint] == [HEADER, scope, kind, ins, composition, hint];
  }

  lemma {:induction false} TextPieces(lines: seq<string>, last: string)
    requires forall l :: l in lines ==> '\n' !in l
    ensures Split(Join(lines + [last], "\n"), '\n') == lines + Split(last, '\n')
  {
    if lines == [] {
      assert lines + [last] == [last];
    } else {
      var rest := lines[1..] + [last];
      assert lines + [last] == [lines[0]] + rest && lines[0] in lines;
      JoinCons(lines[0], rest, "\n");
      TextPieces(lines[1..], last);
      SplitCons(lines[0], '\n', Join(rest, "\n"));
    }
  }

  /**
   With line breaks kept out of the kinds, and line breaks and commas out of the
   input ids, intents have one text exactly when they are one intent.
   (A parsed scope and a JSON text hold no line break.)
   */
  lemma SameMaterialIff(scope: string, kind: string, a: seq<Input>, composition: string, hint: string,
                        scope': string, kind': string, b: seq<Input>, composition': string, hint': string)
    requires '\n' !in scope && '\n' !in scope' && '\n' !in composition && '\n' !in composition'
    requires '\n' !in kind && '\n' !in kind' && PlainIds(a) && PlainIds(b)
    ensures Material(scope, kind, a, composition, hint) == Material(scope', kind', b, composition', hint') <==>
      && scope == scope' && kind == kind' && multiset(Pins(a)) == multiset(Pins(b))
      && composition == composition' && hint == hint'
  {
    if scope == scope' && kind == kind' && multiset(Pins(a)) == multiset(Pins(b)) && composition == composition'
       && hint == hint' {
      MaterialIgnoresInputOrder(scope, kind, a, b, composition, hint);
    }
    if Material(scope, kind, a, composition, hint) == Material(scope', kind', b, composition', hint') {
      PinsTextHasNoBreak(a);
      PinsTextHasNoBreak(b);
      MaterialPieces(scope, kind, PinsText(Pins(a)), composition, hint);
      MaterialPieces(scope', kind', PinsText(Pins(b)), composition', hint');
      FivePieces([HEADER, scope, kind, PinsText(Pins(a)), composition], Split(hint, '\n'),
                 [HEADER, scope', kind', PinsText(Pins(b)), composition'], Split(hint', '\n'));
      PinsTextDetermines(a, b);
      JoinOfSplit(hint, '\n');
      JoinOfSplit(hint', '\n');
    }
  }

  lemma FivePieces(a: seq<string>, b: seq<string>, c: seq<string>, d: seq<string>)
    requires |a| == |c| == 5 && a + b == c + d
    ensures b == d && a[1] == c[1] && a[2] == c[2] && a[3] == c[3] && a[4] == c[4]
  {
    assert a == (a + b)[..5] && c == (c + d)[..5];
    assert b == (a + b)[5..] && d == (c + d)[5..];
  }

  lemma PinsTextHasNoBreak(inputs: seq<Input>)
    requires PlainIds(inputs)
    ensures '\n' !in PinsText(Pins(inputs))
  {
    PlainPinTexts(inputs);
    SortedTexts(inputs);
    JoinLacks(Sort(PinTexts(Pins(inputs)), TextOrder()), ",", '\n');
  }

  // ---- Each of the three conditions is needed ------------------------------------------------

  /** The material from the inputs on. */
  function Rest(ins: string, composition: string, hint: string): string {
    ins + ("\n" + (composition + ("\n" + hint)))
  }

  lemma MaterialText(scope: string, kind: string, inputs: seq<Input>, composition: string, hint: string)
    ensures Material(scope, kind, inputs, composition, hint)
      == (HEADER + "\n" + scope + "\n") + (kind + ("\n" + Rest(PinsText(Pins(inputs)), composition, hint)))
  {
    var ins := PinsText(Pins(inputs));
    JoinFour(kind, ins, composition, hint);
    JoinCons(scope, [kind, ins, composition, hint], "\n");
    JoinCons(HEADER, [scope, kind, ins, composition, hint], "\n");
    assert [HEADER, scope, kind, ins, composition, hint] == [HEADER] + [scope, kind, ins, composition, hint];
    assert [scope, kind, ins, composition, hint] == [scope] + [kind, ins, composition, hint];
  }

  lemma JoinFour(a: string, b: string, c: string, d: string)
    ensures Join([a, b, c, d], "\n") == a + ("\n" + Rest(b, c, d))
  {
    JoinCons(c, [d], "\n");
    JoinCons(b, [c, d], "\n");
    JoinCons(a, [b, c, d], "\n");
    assert [c, d] == [c] + [d] && [b, c, d] == [b] + [c, d] && [a, b, c, d] == [a] + [b, c, d];
  }

  /** A kind with line breaks can swallow the inputs and the composition of another intent. */
  lemma KindWithLineBreakCollides(scope: string, kind: string, inputs: seq<Input>, composition: string,
                                  composition': string, hint: string)
    ensures Material(scope, kind, inputs, composition, "\n" + (composition' + ("\n" + hint)))
      == Material(scope, kind + ("\n" + (PinsText(Pins(inputs)) + ("\n" + composition))), [], composition', hint)
    ensures inputs != [] ==> multiset(Pins(inputs)) != multiset(Pins([]))
  {
    var ins := PinsText(Pins(inputs));
    MaterialText(scope, kind, inputs, composition, "\n" + (composition' + ("\n" + hint)));
    MaterialText(scope, kind + ("\n" + (ins + ("\n" + composition))), [], composition', hint);
    assert PinsText(Pins([])) == "";
    LinesMove(kind, ins, composition, composition', hint);
    assert |multiset(Pins(inputs))| == |Pins(inputs)| == |inputs|;
  }

  lemma LinesMove(kind: string, ins: string, composition: string, composition': string, hint: string)
    ensures kind + ("\n" + Rest(ins, composition, "\n" + (composition' + ("\n" + hint))))
      == (kind + ("\n" + (ins + ("\n" + composition)))) + ("\n" + Rest("", composition', hint))
  {
    assert "" + ("\n" + (composition' + ("\n" + hint))) == "\n" + (composition' + ("\n" + hint));
  }

  /** An id with a comma can swallow a second input. */
  lemma IdWithCommaCollides(scope: string, kind: string, p: Pin, q: Pin, composition: string, hint: string)
    requires TextLeq(PinText(p), PinText(q))
    ensures var id := p.id + ":" + Decimal(p.revision) + "," + KindName(q.kind) + ":" + q.id;
      Material(scope, kind, [Input(p.kind, id, Some(q.revision))], composition, hint)
        == Material(scope, kind, [Input(p.kind, p.id, Some(p.revision)), Input(q.kind, q.id, Some(q.revision))],
                    composition, hint)
  {
    var id := p.id + ":" + Decimal(p.revision) + "," + KindName(q.kind) + ":" + q.id;
    assert Pins([Input(p.kind, id, Some(q.revision))]) == [Pin(p.kind, id, q.revision)];
    assert Pins([Input(p.kind, p.id, Some(p.revision)), Input(q.kind, q.id, Some(q.revision))]) == [p, q];
    OnePinText(Pin(p.kind, id, q.revision));
    TwoPinsText(p, q);
    CommaMoves(KindName(p.kind), p.id, Decimal(p.revision), KindName(q.kind), q.id, Decimal(q.revision));
  }

  lemma CommaMoves(k: string, id: string, rev: string, k': string, id': string, rev': string)
    ensures k + ":" + ((id + ":" + rev + "," + k' + ":" + id') + ":" + rev')
      == (k + ":" + (id + ":" + rev)) + "," + (k' + ":" + (id' + ":" + rev'))
  {
    var tail := k' + ":" + (id' + ":" + rev');
    assert (id + ":" + rev + "," + k' + ":" + id') + ":" + rev' == (id + ":" + rev) + ("," + tail);
    assert k + ":" + ((id + ":" + rev) + ("," + tail)) == (k + ":" + (id + ":" + rev)) + ("," + tail);
  }

  lemma OnePinText(p: Pin)
    ensures PinsText([p]) == PinText(p)
  {
    assert PinTexts([p]) == [PinText(p)];
    assert Sort([PinText(p)], TextOrder()) == [PinText(p)];
  }

  lemma TwoPinsText(p: Pin, q: Pin)
    requires TextLeq(PinText(p), PinText(q))
    ensures PinsText([p, q]) == PinText(p) + "," + PinText(q)
  {
    var s, t := PinText(p), PinText(q);
    assert PinTexts([q]) == [t];
    ConsTexts(p, [q]);
    assert [p] + [q] == [p, q] && [s] + [t] == [s, t];
    assert Sort([t], TextOrder()) == [t];
    assert [s, t][1..] == [t];
    assert TextOrder()(s, t);
    assert Sort([s, t], TextOrder()) == [s] + [t];
    JoinCons(s, [t], ",");
  }

  /** An id with a line break can swallow the composition and move the rest into the hint. */
  lemma IdWithLineBreakCollides(scope: string, kind: string, p: Pin, tail: string, revision: nat, composition: string,
                                composition': string, hint: string)
    ensures var id := p.id + ":" + Decimal(p.revision) + "\n" + composition + "\n" + tail;
      Material(scope, kind, [Input(p.kind, id, Some(revision))], composition', hint)
        == Material(scope, kind, [Input(p.kind, p.id, Some(p.revision))], composition,
                    tail + ":" + Decimal(revision) + "\n" + composition' + "\n" + hint)
      && id != p.id
  {
    var id := p.id + ":" + Decimal(p.revision) + "\n" + composition + "\n" + tail;
    var moved := tail + ":" + Decimal(revision) + "\n" + composition' + "\n" + hint;
    var long := Pin(p.kind, id, revision);
    assert Pins([Input(p.kind, id, Some(revision))]) == [long];
    assert Pins([Input(p.kind, p.id, Some(p.revision))]) == [p];
    OnePinText(long);
    OnePinText(p);
    MaterialText(scope, kind, [Input(p.kind, id, Some(revision))], composition', hint);
    MaterialText(scope, kind, [Input(p.kind, p.id, Some(p.revision))], composition, moved);
    assert PinText(long) + ("\n" + (composition' + ("\n" + hint)))
      == PinText(p) + ("\n" + (composition + ("\n" + moved)));
  }

  /** The text of the scope in a key, between its first two line breaks. */
  function KeyScope(key: string): string { Line(key[if |key| > |HEADER| then |HEADER| + 1 else |key|..]) }

  function Line(s: string): string {
    if s == [] || s[0] == '\n' then [] else [s[0]] + Line(s[1..])
  }

  lemma {:induction false} LineOf(a: string, b: string)
    requires '\n' !in a
    ensures Line(a + ("\n" + b)) == a
  {
    if a == [] {
      assert a + ("\n" + b) == "\n" + b;
    } else {
      assert (a + ("\n" + b))[1..] == a[1..] + ("\n" + b) && a[0] in a;
      LineOf(a[1..], b);
    }
  }

  lemma KeyScopeOfMaterial(scope: string, kind: string, inputs: seq<Input>, composition: string, hint: string)
    requires '\n' !in scope
    ensures KeyScope(Material(scope, kind, inputs, composition, hint)) == scope
  {
    MaterialText(scope, kind, inputs, composition, hint);
    var rest := kind + ("\n" + Rest(PinsText(Pins(inputs)), composition, hint));
    var m := Material(scope, kind, inputs, composition, hint);
    assert m == (HEADER + "\n") + (scope + ("\n" + rest));
    LineOf(scope, rest);
  }
}
