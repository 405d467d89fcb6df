/**
 Probes generated from a mined graph (`corpus_probes`) and the truth of their
 `min_depth` labels. What a heading and its significant tokens are is a parameter:
 the labels are right for every lexicon.
 */
module CorpusProbes {
  import opened Wrappers
  import opened Texts
  import opened CorpusGraph

  /** The query of a section and the significant tokens of a text. */
  datatype Lexicon = Lexicon(heading: Text -> Text, tokens: Text -> set<Text>)

  datatype Probe = Probe(section: Text, query: Text, gold: seq<Text>, seeds: seq<Text>, minDepth: nat)

  /** The objects of `a`'s edges, in edge order. */
  function Targets(edges: seq<Edge>, a: Text): seq<Text> {
    if edges == [] then []
    else
      Targets(edges[..|edges| - 1], a)
      + (if edges[|edges| - 1].subject == a then [edges[|edges| - 1].object_] else [])
  }

  lemma {:induction false} TargetsAreEdges(edges: seq<Edge>, a: Text, b: Text)
    ensures b in Targets(edges, a) <==> HasEdge(edges, a, b)
  {
    if edges != [] {
      var init, last := edges[..|edges| - 1], edges[|edges| - 1];
      TargetsAreEdges(init, a, b);
      assert edges == init + [last];
      assert forall e :: e in edges <==> e in init || e == last;
      if HasEdge(edges, a, b) {
        var e :| e in edges && e.subject == a && e.object_ == b;
        assert e in init || e == last;
      }
      if last.subject == a && last.object_ == b {
        assert last in edges;
      }
      if HasEdge(init, a, b) {
        var e :| e in init && e.subject == a && e.object_ == b;
        assert e in edges;
      }
    }
  }

  /** Targets come in edge order. */
  lemma {:induction false} TargetsJoin(a: seq<Edge>, b: seq<Edge>, name: Text)
    ensures Targets(a + b, name) == Targets(a, name) + Targets(b, name)
  {
    if b == [] {
      assert a + b == a;
    } else {
      TargetsJoin(a, b[..|b| - 1], name);
      assert (a + b)[..|a + b| - 1] == a + b[..|b| - 1] && (a + b)[|a + b| - 1] == b[|b| - 1];
    }
  }

  /** The last section with a label has the say over its text. */
  lemma {:induction false} TextIsTheLast(docs: seq<Doc>, i: nat)
    requires i < |docs| && forall k :: i < k < |docs| ==> docs[k].name != docs[i].name
    ensures TextOf(docs, docs[i].name) == docs[i].text
  {
    if i < |docs| - 1 {
      TextIsTheLast(docs[..|docs| - 1], i);
    }
  }

  /** The text of the last section with this label. */
  function TextOf(docs: seq<Doc>, name: Text): Text {
    if docs == [] then []
    else if docs[|docs| - 1].name == name then docs[|docs| - 1].text
    else TextOf(docs[..|docs| - 1], name)
  }

  /** The target's section shares no significant token with the query. */
  predicate Disjoint(lex: Lexicon, docs: seq<Doc>, query: set<Text>, name: Text) {
    query !! lex.tokens(TextOf(docs, name))
  }

  /** The tokens a target is judged by are those of its own section's text. */
  lemma DisjointIff(lex: Lexicon, docs: seq<Doc>, query: set<Text>, i: nat)
    requires i < |docs| && forall k :: i < k < |docs| ==> docs[k].name != docs[i].name
    ensures Disjoint(lex, docs, query, docs[i].name) <==> forall t :: t in query ==> t !in lex.tokens(docs[i].text)
  {
    TextIsTheLast(docs, i);
  }

  // ---- What a probe means ----------------------------------------------------------

  /** The sections at distance `n` whose vocabulary the query does not touch. */
  ghost predicate GraphOnly(lex: Lexicon, docs: seq<Doc>, edges: seq<Edge>, d: Doc, n: nat, name: Text) {
    Distance(edges, d.name, name, n) && Disjoint(lex, docs, lex.tokens(lex.heading(d.text)), name)
  }

  /** A probe of section `d` whose labels are true. */
  ghost predicate Truthful(lex: Lexicon, docs: seq<Doc>, edges: seq<Edge>, d: Doc, p: Probe) {
    && p.section == d.name
    && p.query == lex.heading(d.text)
    && |lex.tokens(p.query)| >= 2
    && p.gold != []
    && p.minDepth <= 2
    && (p.minDepth == 1 ==> forall u :: u in p.gold <==> GraphOnly(lex, docs, edges, d, 1, u))
    && (p.minDepth == 2 ==>
          && (forall u :: u in p.gold <==> GraphOnly(lex, docs, edges, d, 2, u))
          && (forall u :: !GraphOnly(lex, docs, edges, d, 1, u))
          && p.seeds == [d.name] + Targets(edges, d.name))
    && (p.minDepth == 0 ==>
          && p.gold == Targets(edges, d.name)
          && (forall u, n :: GraphOnly(lex, docs, edges, d, n, u) ==> n != 1 && n != 2))
    && (p.minDepth < 2 ==> p.seeds == [d.name])
  }

  /** Graph-only gold is never already among the seeds. */
  lemma GoldIsDisjointFromSeeds(lex: Lexicon, docs: seq<Doc>, edges: seq<Edge>, d: Doc, p: Probe)
    requires Truthful(lex, docs, edges, d, p) && p.minDepth > 0
    ensures forall u :: u in p.gold ==> u !in p.seeds
  {
    forall u | u in p.gold ensures u !in p.seeds {
      TargetsAreEdges(edges, d.name, u);
      DistanceOne(edges, d.name, u);
      DistanceTwo(edges, d.name, u);
    }
  }

  // ---- Generation -----------------------------------------------------------------------

  /** Adjacency lists in edge order. */
  method Adjacency(edges: seq<Edge>) returns (out: map<Text, seq<Text>>)
    ensures forall a :: Targets(edges, a) == if a in out then out[a] else []
    ensures forall a :: a in out ==> out[a] != []
  {
    out := map[];
    for i := 0 to |edges|
      invariant forall a :: Targets(edges[..i], a) == if a in out then out[a] else []
      invariant forall a :: a in out ==> out[a] != []
    {
      assert edges[..i + 1][..i] == edges[..i];
      var e := edges[i];
      out := out[e.subject := (if e.subject in out then out[e.subject] else []) + [e.object_]];
    }
    assert edges[..|edges|] == edges;
  }

  /** The direct targets the query's vocabulary does not reach. */
  method DirectGold(lex: Lexicon, docs: seq<Doc>, query: set<Text>, targets: seq<Text>) returns (gold: seq<Text>)
    ensures forall u :: u in gold <==> u in targets && Disjoint(lex, docs, query, u)
    ensures forall u :: multiset(gold)[u] == if Disjoint(lex, docs, query, u) then multiset(targets)[u] else 0
  {
    gold := [];
    for i := 0 to |targets|
      invariant forall u :: u in gold <==> u in targets[..i] && Disjoint(lex, docs, query, u)
      invariant forall u :: multiset(gold)[u] == if Disjoint(lex, docs, query, u) then multiset(targets[..i])[u] else 0
    {
      assert targets[..i + 1] == targets[..i] + [targets[i]];
      if Disjoint(lex, docs, query, targets[i]) {
        gold := gold + [targets[i]];
      }
    }
    assert targets[..|targets|] == targets;
  }

  /** What may be second-step gold: not the section itself, not a direct target. */
  predicate SecondStep(lex: Lexicon, docs: seq<Doc>, query: set<Text>, self: Text, targets: seq<Text>, u: Text) {
    u != self && u !in targets && Disjoint(lex, docs, query, u)
  }

  /** The targets of direct targets, each once. */
  method SecondGold(lex: Lexicon, docs: seq<Doc>, query: set<Text>, self: Text, targets: seq<Text>,
                    out: map<Text, seq<Text>>) returns (gold: seq<Text>)
    ensures forall u :: u in gold <==>
      SecondStep(lex, docs, query, self, targets, u) && exists t :: t in targets && t in out && u in out[t]
    ensures forall i, j :: 0 <= i < j < |gold| ==> gold[i] != gold[j]
  {
    gold := [];
    for i := 0 to |targets|
      invariant forall u :: u in gold <==>
        SecondStep(lex, docs, query, self, targets, u) && exists t :: t in targets[..i] && t in out && u in out[t]
      invariant forall i, j :: 0 <= i < j < |gold| ==> gold[i] != gold[j]
    {
      assert targets[..i + 1] == targets[..i] + [targets[i]];
      var t := targets[i];
      if t in out {
        gold := SecondGoldVia(lex, docs, query, self, targets, out[t], gold);
      }
    }
    assert targets[..|targets|] == targets;
  }

  method SecondGoldVia(lex: Lexicon, docs: seq<Doc>, query: set<Text>, self: Text, targets: seq<Text>,
                       next: seq<Text>, before: seq<Text>) returns (gold: seq<Text>)
    requires forall u :: u in before ==> SecondStep(lex, docs, query, self, targets, u)
    requires forall i, j :: 0 <= i < j < |before| ==> before[i] != before[j]
    ensures forall u :: u in gold <==> u in before || (u in next && SecondStep(lex, docs, query, self, targets, u))
    ensures forall i, j :: 0 <= i < j < |gold| ==> gold[i] != gold[j]
  {
    gold := before;
    for k := 0 to |next|
      invariant forall u ::
        u in gold <==> u in before || (u in next[..k] && SecondStep(lex, docs, query, self, targets, u))
      invariant forall i, j :: 0 <= i < j < |gold| ==> gold[i] != gold[j]
    {
      assert next[..k + 1] == next[..k] + [next[k]];
      var u := next[k];
      if u == self || u in targets || u in gold {
        continue;
      }
      if Disjoint(lex, docs, query, u) {
        gold := gold + [u];
      }
    }
    assert next[..|next|] == next;
  }

  /** Whether the section can be a query at all. */
  ghost predicate Probeable(lex: Lexicon, edges: seq<Edge>, d: Doc) {
    (exists u :: HasEdge(edges, d.name, u)) && |lex.tokens(lex.heading(d.text))| >= 2
  }

  method ProbeSection(lex: Lexicon, docs: seq<Doc>, ghost edges: seq<Edge>, out: map<Text, seq<Text>>, d: Doc)
    returns (p: Option<Probe>)
    requires forall a :: Targets(edges, a) == if a in out then out[a] else []
    requires forall a :: a in out ==> out[a] != []
    ensures p.Some? <==> Probeable(lex, edges, d)
    ensures p.Some? && !HasEdge(edges, d.name, d.name) ==> Truthful(lex, docs, edges, d, p.value)
  {
    forall a, b ensures HasEdge(edges, a, b) <==> a in out && b in out[a] {
      TargetsAreEdges(edges, a, b);
    }
    if d.name !in out {
      return None;
    }
    var targets := out[d.name];
    assert HasEdge(edges, d.name, targets[0]);
    var heading := lex.heading(d.text);
    var query := lex.tokens(heading);
    if |query| < 2 {
      return None;
    }
    var direct := DirectGold(lex, docs, query, targets);
    var second := SecondGold(lex, docs, query, d.name, targets, out);
    forall u ensures !HasEdge(edges, d.name, d.name) ==> (u in direct <==> GraphOnly(lex, docs, edges, d, 1, u)) {
      DistanceOne(edges, d.name, u);
    }
    forall u ensures u in second <==> GraphOnly(lex, docs, edges, d, 2, u) {
      DistanceTwo(edges, d.name, u);
    }
    if direct != [] {
      return Some(Probe(d.name, heading, direct, [d.name], 1));
    } else if second != [] {
      return Some(Probe(d.name, heading, second, [d.name] + targets, 2));
    } else {
      return Some(Probe(d.name, heading, targets, [d.name], 0));
    }
  }

  /** The sections that can be queried, in corpus order. */
  ghost function Queried(lex: Lexicon, edges: seq<Edge>, docs: seq<Doc>): seq<Doc> {
    if docs == [] then []
    else
      var last := docs[|docs| - 1];
      Queried(lex, edges, docs[..|docs| - 1]) + if Probeable(lex, edges, last) then [last] else []
  }

  lemma {:induction false} QueriedJoin(lex: Lexicon, edges: seq<Edge>, a: seq<Doc>, b: seq<Doc>)
    ensures Queried(lex, edges, a + b) == Queried(lex, edges, a) + Queried(lex, edges, b)
  {
    if b == [] {
      assert a + b == a;
    } else {
      QueriedJoin(lex, edges, a, b[..|b| - 1]);
      assert (a + b)[..|a + b| - 1] == a + b[..|b| - 1] && (a + b)[|a + b| - 1] == b[|b| - 1];
    }
  }

  lemma {:induction false} QueriedAreTheProbeable(lex: Lexicon, edges: seq<Edge>, docs: seq<Doc>)
    ensures forall d :: d in Queried(lex, edges, docs) <==> d in docs && Probeable(lex, edges, d)
  {
    if docs != [] {
      var init, last := docs[..|docs| - 1], docs[|docs| - 1];
      assert docs == init + [last];
      QueriedAreTheProbeable(lex, edges, init);
    }
  }

  /**
   One probe for every section that can be queried, in section order; the labels of
   a probe are true whenever its section has no edge to itself. Mined edges never do.
   */
  method CorpusProbes(lex: Lexicon, docs: seq<Doc>, edges: seq<Edge>) returns (probes: seq<Probe>)
    ensures |probes| == |Queried(lex, edges, docs)|
    ensures forall i :: 0 <= i < |probes| ==> LabelsHold(lex, docs, edges, Queried(lex, edges, docs)[i], probes[i])
    ensures (forall e :: e in edges ==> Mined(docs, e)) ==>
      forall i :: 0 <= i < |probes| ==> Truthful(lex, docs, edges, Queried(lex, edges, docs)[i], probes[i])
  {
    var out := Adjacency(edges);
    probes := [];
    for i := 0 to |docs|
      invariant Labelled(lex, docs, edges, Queried(lex, edges, docs[..i]), probes)
    {
      var p := ProbeSection(lex, docs, edges, out, docs[i]);
      assert docs[..i + 1][..i] == docs[..i];
      if p.Some? {
        probes := probes + [p.value];
      }
    }
    assert docs[..|docs|] == docs;
    ghost var queried := Queried(lex, edges, docs);
    if forall e :: e in edges ==> Mined(docs, e) {
      forall i | 0 <= i < |probes| ensures Truthful(lex, docs, edges, queried[i], probes[i]) {
        MinedGraphHasNoLoop(docs, edges, queried[i].name);
        assert LabelsHold(lex, docs, edges, queried[i], probes[i]);
      }
    }
  }

  /** True labels, unless the section points to itself. */
  ghost predicate LabelsHold(lex: Lexicon, docs: seq<Doc>, edges: seq<Edge>, d: Doc, p: Probe) {
    !HasEdge(edges, d.name, d.name) ==> Truthful(lex, docs, edges, d, p)
  }

  ghost predicate Labelled(lex: Lexicon, docs: seq<Doc>, edges: seq<Edge>, queried: seq<Doc>, probes: seq<Probe>) {
    |probes| == |queried| && forall i :: 0 <= i < |probes| ==> LabelsHold(lex, docs, edges, queried[i], probes[i])
  }

  lemma MinedGraphHasNoLoop(docs: seq<Doc>, edges: seq<Edge>, a: Text)
    requires forall e :: e in edges ==> Mined(docs, e)
    ensures !HasEdge(edges, a, a)
  {
    forall e | e in edges ensures e.subject != e.object_ {
      MinedEdgesJoinTwoSections(docs, e);
    }
  }
}
