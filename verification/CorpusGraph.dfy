/**
 Edges mined from a corpus of sections (`mine_edges`): a requirement id referenced
 in one section points to the section that first defines it, and a link to another
 document points to that document's preamble. Also walks and distances in a graph.
 */
module CorpusGraph {
  import opened Wrappers
  import opened Texts
  import opened RequirementIds
  import Sorting

  datatype Doc = Doc(name: Text, text: Text)

  datatype Predicate = DerivedFrom | DependsOn

  datatype Edge = Edge(subject: Text, predicate_: Predicate, object_: Text)

  // ---- Meaning of the two kinds of edge ---------------------------------------------

  /** The label of the first of the first `n` sections that define `id`. */
  function Definer(docs: seq<Doc>, n: nat, id: Text): Option<Text>
    requires n <= |docs|
  {
    if n == 0 then None
    else
      var earlier := Definer(docs, n - 1, id);
      if earlier.Some? then earlier
      else if id in Ids(docs[n - 1].text, true) then Some(docs[n - 1].name)
      else None
  }

  /** `::00-preamble` */
  const PREAMBLE: Text := [0x3A, 0x3A, 0x30, 0x30, 0x2D, 0x70, 0x72, 0x65, 0x61, 0x6D, 0x62, 0x6C, 0x65]
  const COLONS: Text := [0x3A, 0x3A]

  function Stem(name: Text): Text {
    match IndexOf(name, COLONS)
    case None => name
    case Some(i) => name[..i]
  }

  /** The label of the last of the first `n` sections that is the preamble of `stem`. */
  function PreambleOf(docs: seq<Doc>, n: nat, stem: Text): Option<Text>
    requires n <= |docs|
  {
    if n == 0 then None
    else if EndsWith(docs[n - 1].name, PREAMBLE) && Stem(docs[n - 1].name) == stem then Some(docs[n - 1].name)
    else PreambleOf(docs, n - 1, stem)
  }

  const LINK: Text := [0x5D, 0x28]
  const CLOSE: Text := [0x29]
  const MD: Text := [0x2E, 0x6D, 0x64]

  /** The document a link target names: the file name without fragment, path and `.md`. */
  function LinkStem(target: Text): Option<Text> {
    var file := AfterLast(Before(target, 0x23), 0x2F);
    if EndsWith(file, MD) then Some(file[..|file| - |MD|]) else None
  }

  /** One link at the head of `rest`: its target and what follows it, if it is closed. */
  function SplitLink(rest: Text): (Text, Option<Text>) {
    match IndexOf(rest, CLOSE)
    case None => (rest, None)
    case Some(end) => (rest[..end], Some(rest[end + 1..]))
  }

  /** The documents a text links to, in order. */
  function Links(text: Text): seq<Text>
    decreases |text|
  {
    match IndexOf(text, LINK)
    case None => []
    case Some(pos) =>
      var (target, after) := SplitLink(text[pos + 2..]);
      (if LinkStem(target).Some? then [LinkStem(target).value] else [])
      + (if after.None? then [] else Links(after.value))
  }

  /** A definer is the first section that defines the id, and there is one as soon as any section does. */
  lemma {:induction false} DefinerIsFirst(docs: seq<Doc>, n: nat, id: Text)
    requires n <= |docs|
    ensures Definer(docs, n, id).Some? <==> exists i :: 0 <= i < n && id in Ids(docs[i].text, true)
    ensures forall i :: 0 <= i < n && id in Ids(docs[i].text, true)
                        && (forall k :: 0 <= k < i ==> id !in Ids(docs[k].text, true)) ==>
      Definer(docs, n, id) == Some(docs[i].name)
  {
    if n > 0 {
      DefinerIsFirst(docs, n - 1, id);
    }
  }

  predicate IsPreambleOf(d: Doc, stem: Text) { EndsWith(d.name, PREAMBLE) && Stem(d.name) == stem }

  /** The preamble of a stem is the last section that is one. */
  lemma {:induction false} PreambleIsLast(docs: seq<Doc>, n: nat, stem: Text, i: nat)
    requires i < n <= |docs| && IsPreambleOf(docs[i], stem)
    requires forall k :: i < k < n ==> !IsPreambleOf(docs[k], stem)
    ensures PreambleOf(docs, n, stem) == Some(docs[i].name)
  {
    if n - 1 > i {
      PreambleIsLast(docs, n - 1, stem, i);
    }
  }

  lemma {:induction false} NoPreamble(docs: seq<Doc>, n: nat, stem: Text)
    requires n <= |docs| && forall k :: 0 <= k < n ==> !IsPreambleOf(docs[k], stem)
    ensures PreambleOf(docs, n, stem).None?
  {
    if n > 0 {
      NoPreamble(docs, n - 1, stem);
    }
  }

  /** The preamble section of a document without colons in its name belongs to that document. */
  lemma PreambleNamesItsStem(stem: Text)
    requires forall b :: b in stem ==> b != 0x3A
    ensures EndsWith(stem + PREAMBLE, PREAMBLE) && Stem(stem + PREAMBLE) == stem
  {
    var u := stem + COLONS[..1];
    forall i: nat ensures !OccursAt(u, COLONS, i) {
      if i + 2 <= |u| {
        assert u[i..i + 2][0] == u[i] == stem[i] && stem[i] in stem;
      }
    }
    assert stem + PREAMBLE == stem + (COLONS + PREAMBLE[2..]);
    FirstOccurrence(stem, COLONS, PREAMBLE[2..]);
  }

  /** A link in a text: after plain text, its target counts, and the search goes on behind it. */
  lemma LinkIsFound(p: Text, target: Text, q: Text)
    requires Free(p + LINK[..1], LINK) && forall b :: b in target ==> b != 0x29
    ensures Links(p + (LINK + (target + (CLOSE + q)))) ==
      (if LinkStem(target).Some? then [LinkStem(target).value] else []) + Links(q)
  {
    var rest := target + (CLOSE + q);
    FirstOccurrence(p, LINK, rest);
    assert (p + (LINK + rest))[|p| + 2..] == rest;
    assert CLOSE[..0] == [] && target + [] == target;
    forall i: nat ensures !OccursAt(target, CLOSE, i) {
      if i + 1 <= |target| {
        assert target[i..i + 1][0] == target[i] && target[i] in target;
      }
    }
    FirstOccurrence(target, CLOSE, q);
    assert rest[..|target|] == target && rest[|target| + 1..] == q;
    LinksUnfold(p + (LINK + rest));
  }

  /** A target names a document by its file name, whatever path stands before it and fragment behind. */
  lemma TargetNamesItsStem(dir: Text, stem: Text, fragment: Text)
    requires (dir == [] || dir[|dir| - 1] == 0x2F) && (fragment == [] || fragment[0] == 0x23)
    requires forall b :: b in dir ==> b != 0x23
    requires forall b :: b in stem ==> b != 0x23 && b != 0x2F
    ensures LinkStem(dir + (stem + MD) + fragment) == Some(stem)
  {
    var file := stem + MD;
    forall b | b in dir + file ensures b != 0x23 {
      assert b in dir || b in stem || b in MD;
    }
    BeforeStops(dir + file, 0x23, fragment);
    forall b | b in file ensures b != 0x2F {
      assert b in stem || b in MD;
    }
    AfterLastStops(dir, 0x2F, file);
    assert file[..|file| - |MD|] == stem && file[|file| - |MD|..] == MD;
  }

  lemma {:induction false} BeforeStops(s: Text, b: Byte, rest: Text)
    requires (forall x :: x in s ==> x != b) && (rest == [] || rest[0] == b)
    ensures Before(s + rest, b) == s
  {
    if s == [] {
      assert s + rest == rest;
    } else {
      assert s[0] in s && (s + rest)[1..] == s[1..] + rest;
      assert forall x :: x in s[1..] ==> x in s;
      BeforeStops(s[1..], b, rest);
    }
  }

  lemma {:induction false} AfterLastStops(front: Text, b: Byte, s: Text)
    requires (forall x :: x in s ==> x != b) && (front == [] || front[|front| - 1] == b)
    ensures AfterLast(front + s, b) == s
    decreases |s|
  {
    if s == [] {
      assert front + s == front;
    } else {
      var last := |s| - 1;
      assert s[last] in s && (front + s)[..|front + s| - 1] == front + s[..last];
      assert forall x :: x in s[..last] ==> x in s;
      AfterLastStops(front, b, s[..last]);
    }
  }

  ghost predicate References(docs: seq<Doc>, d: Doc, target: Text) {
    exists id :: id in Ids(d.text, false) && Definer(docs, |docs|, id) == Some(target)
  }

  ghost predicate LinksTo(docs: seq<Doc>, d: Doc, target: Text) {
    exists stem :: stem in Links(d.text) && PreambleOf(docs, |docs|, stem) == Some(target)
  }

  /** The edges the corpus means. */
  ghost predicate Mined(docs: seq<Doc>, e: Edge) {
    exists d :: d in docs && MinedFrom(docs, d, e)
  }

  ghost predicate MinedFrom(docs: seq<Doc>, d: Doc, e: Edge) {
    && e.subject == d.name
    && e.object_ != d.name
    && match e.predicate_
       case DerivedFrom => References(docs, d, e.object_)
       case DependsOn => LinksTo(docs, d, e.object_)
  }

  // ---- Mining -----------------------------------------------------------------------------

  ghost predicate IsDefinerTable(docs: seq<Doc>, n: nat, m: map<Text, Text>)
    requires n <= |docs|
  {
    forall id :: Definer(docs, n, id) == if id in m then Some(m[id]) else None
  }

  ghost predicate IsPreambleTable(docs: seq<Doc>, n: nat, m: map<Text, Text>)
    requires n <= |docs|
  {
    forall stem :: PreambleOf(docs, n, stem) == if stem in m then Some(m[stem]) else None
  }

  /** First definition wins. */
  method DefinitionTable(docs: seq<Doc>) returns (m: map<Text, Text>)
    ensures IsDefinerTable(docs, |docs|, m)
  {
    m := map[];
    for i := 0 to |docs|
      invariant IsDefinerTable(docs, i, m)
    {
      var ids := FindIds(docs[i].text, true);
      ghost var before := m;
      for j := 0 to |ids|
        invariant forall id :: id in m <==> id in before || id in ids[..j]
        invariant forall id :: id in m ==> m[id] == if id in before then before[id] else docs[i].name
      {
        if ids[j] !in m {
          m := m[ids[j] := docs[i].name];
        }
        assert ids[..j + 1] == ids[..j] + [ids[j]];
      }
      assert ids[..|ids|] == ids;
    }
  }

  /** Last preamble wins. */
  method PreambleTable(docs: seq<Doc>) returns (m: map<Text, Text>)
    ensures IsPreambleTable(docs, |docs|, m)
  {
    m := map[];
    for i := 0 to |docs|
      invariant IsPreambleTable(docs, i, m)
    {
      if EndsWith(docs[i].name, PREAMBLE) {
        m := m[Stem(docs[i].name) := docs[i].name];
      }
    }
  }

  /** `edges` are those of section `d` for the referenced ids seen so far. */
  ghost predicate ReferenceEdgesSoFar(docs: seq<Doc>, d: Doc, seen: seq<Text>, edges: set<Edge>) {
    forall e :: e in edges <==>
      && e.subject == d.name && e.predicate_.DerivedFrom? && e.object_ != d.name
      && exists id :: id in seen && Definer(docs, |docs|, id) == Some(e.object_)
  }

  lemma AddReference(docs: seq<Doc>, d: Doc, definers: map<Text, Text>, seen: seq<Text>, edges: set<Edge>, id: Text)
    requires IsDefinerTable(docs, |docs|, definers) && ReferenceEdgesSoFar(docs, d, seen, edges)
    ensures ReferenceEdgesSoFar(docs, d, seen + [id],
              if id in definers && definers[id] != d.name
              then edges + {Edge(d.name, DerivedFrom, definers[id])} else edges)
  {
    assert Definer(docs, |docs|, id) == if id in definers then Some(definers[id]) else None;
    assert id in seen + [id];
    assert forall x :: x in seen + [id] <==> x in seen || x == id;
  }

  /** The edges of one section's references. */
  method ReferenceEdges(docs: seq<Doc>, d: Doc, definers: map<Text, Text>) returns (edges: set<Edge>)
    requires IsDefinerTable(docs, |docs|, definers)
    ensures ReferenceEdgesSoFar(docs, d, Ids(d.text, false), edges)
  {
    edges := {};
    var ids := FindIds(d.text, false);
    for j := 0 to |ids|
      invariant ReferenceEdgesSoFar(docs, d, ids[..j], edges)
    {
      AddReference(docs, d, definers, ids[..j], edges, ids[j]);
      assert ids[..j + 1] == ids[..j] + [ids[j]];
      if ids[j] in definers && definers[ids[j]] != d.name {
        edges := edges + {Edge(d.name, DerivedFrom, definers[ids[j]])};
      }
    }
    assert ids[..|ids|] == ids;
  }

  /** `edges` are those of section `d` for the link stems seen so far. */
  ghost predicate LinkEdgesSoFar(docs: seq<Doc>, d: Doc, seen: seq<Text>, edges: set<Edge>) {
    forall e :: e in edges <==>
      && e.subject == d.name && e.predicate_.DependsOn? && e.object_ != d.name
      && exists stem :: stem in seen && PreambleOf(docs, |docs|, stem) == Some(e.object_)
  }

  lemma AddLink(docs: seq<Doc>, d: Doc, preambles: map<Text, Text>, seen: seq<Text>, edges: set<Edge>, stem: Text)
    requires IsPreambleTable(docs, |docs|, preambles) && LinkEdgesSoFar(docs, d, seen, edges)
    ensures LinkEdgesSoFar(docs, d, seen + [stem],
              if stem in preambles && preambles[stem] != d.name
              then edges + {Edge(d.name, DependsOn, preambles[stem])} else edges)
  {
    assert PreambleOf(docs, |docs|, stem) == if stem in preambles then Some(preambles[stem]) else None;
    assert stem in seen + [stem];
    assert forall x :: x in seen + [stem] <==> x in seen || x == stem;
  }

  lemma LinksUnfold(text: Text)
    ensures Links(text) ==
      if IndexOf(text, LINK).None? then []
      else
        var (target, after) := SplitLink(text[IndexOf(text, LINK).value + 2..]);
        (if LinkStem(target).Some? then [LinkStem(target).value] else [])
        + (if after.None? then [] else Links(after.value))
  {
  }

  /** What is left of the links once `seen` are done. */
  ghost predicate LinksLeft(text: Text, seen: seq<Text>, left: seq<Text>) {
    Links(text) == seen + left
  }

  lemma LinkSeen(text: Text, seen: seq<Text>, stem: Text, left: seq<Text>)
    requires LinksLeft(text, seen, [stem] + left)
    ensures LinksLeft(text, seen + [stem], left)
  {
    assert seen + ([stem] + left) == (seen + [stem]) + left;
  }

  /** The edges of one section's links, found while shrinking the rest of its text. */
  method LinkEdges(docs: seq<Doc>, d: Doc, preambles: map<Text, Text>) returns (edges: set<Edge>)
    requires IsPreambleTable(docs, |docs|, preambles)
    ensures LinkEdgesSoFar(docs, d, Links(d.text), edges)
  {
    edges := {};
    var rest := d.text;
    ghost var seen: seq<Text> := [];
    while true
      invariant LinksLeft(d.text, seen, Links(rest))
      invariant LinkEdgesSoFar(docs, d, seen, edges)
      decreases |rest|
    {
      var pos := IndexOf(rest, LINK);
      LinksUnfold(rest);
      if pos.None? {
        assert seen + [] == seen;
        return;
      }
      var (target, after) := SplitLink(rest[pos.value + 2..]);
      var stem := LinkStem(target);
      ghost var left := if after.None? then [] else Links(after.value);
      if stem.Some? {
        AddLink(docs, d, preambles, seen, edges, stem.value);
        LinkSeen(d.text, seen, stem.value, left);
        if stem.value in preambles && preambles[stem.value] != d.name {
          edges := edges + {Edge(d.name, DependsOn, preambles[stem.value])};
        }
        seen := seen + [stem.value];
      } else {
        assert [] + left == left;
      }
      if after.None? {
        assert seen + [] == seen;
        return;
      }
      rest := after.value;
    }
  }

  // ---- The order of the list -------------------------------------------------------------

  function Codes(t: Text): (r: seq<int>)
    ensures |r| == |t| && forall i :: 0 <= i < |t| ==> r[i] == t[i] as int
  {
    seq(|t|, i requires 0 <= i < |t| => t[i] as int)
  }

  function TextLeq(a: Text, b: Text): bool { Sorting.LexLeq(Codes(a), Codes(b)) }

  /** By the name of the predicate: `depends_on` comes before `derived_from`. */
  predicate PredicateLeq(p: Predicate, q: Predicate) { p.DependsOn? || q.DerivedFrom? }

  /** By subject, then predicate, then object. */
  predicate EdgeLeq(a: Edge, b: Edge) {
    if a.subject != b.subject then TextLeq(a.subject, b.subject)
    else if a.predicate_ != b.predicate_ then PredicateLeq(a.predicate_, b.predicate_)
    else TextLeq(a.object_, b.object_)
  }

  function EdgeOrder(): (Edge, Edge) -> bool { (a: Edge, b: Edge) => EdgeLeq(a, b) }

  lemma TextLeqIsTotal(a: Text, b: Text, c: Text)
    ensures TextLeq(a, b) || TextLeq(b, a)
    ensures TextLeq(a, b) && TextLeq(b, a) ==> a == b
    ensures TextLeq(a, b) && TextLeq(b, c) ==> TextLeq(a, c)
  {
    Sorting.LexTotal(Codes(a), Codes(b));
    if Codes(a) == Codes(b) {
      assert forall i :: 0 <= i < |a| ==> a[i] as int == Codes(a)[i] == Codes(b)[i];
    }
    if TextLeq(a, b) && TextLeq(b, c) {
      Sorting.LexTrans(Codes(a), Codes(b), Codes(c));
    }
  }

  lemma EdgeOrderIsTotal()
    ensures Sorting.TotalOrder(EdgeOrder())
  {
    forall a: Edge, b: Edge ensures (EdgeLeq(a, b) || EdgeLeq(b, a)) && (EdgeLeq(a, b) && EdgeLeq(b, a) ==> a == b) {
      TextLeqIsTotal(a.subject, b.subject, b.subject);
      TextLeqIsTotal(a.object_, b.object_, b.object_);
    }
    forall a: Edge, b: Edge, c: Edge | EdgeLeq(a, b) && EdgeLeq(b, c) ensures EdgeLeq(a, c) {
      EdgeLeqTrans(a, b, c);
    }
  }

  lemma EdgeLeqTrans(a: Edge, b: Edge, c: Edge)
    requires EdgeLeq(a, b) && EdgeLeq(b, c)
    ensures EdgeLeq(a, c)
  {
    TextLeqIsTotal(a.subject, b.subject, c.subject);
    TextLeqIsTotal(b.subject, c.subject, c.subject);
    TextLeqIsTotal(a.object_, b.object_, c.object_);
  }

  /** A set as a sorted list, as iterating an ordered set gives it. */
  method Ordered(edges: set<Edge>) returns (list: seq<Edge>)
    ensures Sorting.Sorted(list, EdgeOrder()) && Sorting.Distinct(list)
    ensures forall e :: e in list <==> e in edges
  {
    var rest, picked: seq<Edge> := edges, [];
    while rest != {}
      invariant rest <= edges && Sorting.Distinct(picked)
      invariant forall e :: e in picked <==> e in edges && e !in rest
      decreases |rest|
    {
      var e :| e in rest;
      rest, picked := rest - {e}, picked + [e];
    }
    EdgeOrderIsTotal();
    Sorting.SortSorts(picked, EdgeOrder());
    Sorting.SortKeepsDistinct(picked, EdgeOrder());
    list := Sorting.Sort(picked, EdgeOrder());
  }

  /** Of the edges of one section, those from links come before those from references. */
  lemma LinksComeFirst(edges: seq<Edge>, i: nat, j: nat)
    requires Sorting.Sorted(edges, EdgeOrder()) && i < |edges| && j < |edges|
    requires edges[i].subject == edges[j].subject && edges[i].predicate_.DependsOn? && edges[j].predicate_.DerivedFrom?
    ensures i < j
  {
    assert !EdgeOrder()(edges[j], edges[i]);
  }

  /** The mined edges, each once, in order. */
  method MineEdges(docs: seq<Doc>) returns (edges: seq<Edge>)
    ensures forall e :: e in edges <==> Mined(docs, e)
    ensures Sorting.Sorted(edges, EdgeOrder()) && Sorting.Distinct(edges)
  {
    var mined := MineEdgeSet(docs);
    edges := Ordered(mined);
  }

  method MineEdgeSet(docs: seq<Doc>) returns (edges: set<Edge>)
    ensures forall e :: e in edges <==> Mined(docs, e)
  {
    var definers := DefinitionTable(docs);
    var preambles := PreambleTable(docs);
    edges := {};
    for i := 0 to |docs|
      invariant forall e :: e in edges <==> exists k :: 0 <= k < i && MinedFrom(docs, docs[k], e)
    {
      var references := ReferenceEdges(docs, docs[i], definers);
      var links := LinkEdges(docs, docs[i], preambles);
      SectionEdgesAreMined(docs, docs[i], references, links);
      edges := edges + (references + links);
    }
  }

  lemma SectionEdgesAreMined(docs: seq<Doc>, d: Doc, references: set<Edge>, links: set<Edge>)
    requires ReferenceEdgesSoFar(docs, d, Ids(d.text, false), references)
    requires LinkEdgesSoFar(docs, d, Links(d.text), links)
    ensures forall e :: e in references + links <==> MinedFrom(docs, d, e)
  {
  }

  ghost predicate InCorpus(docs: seq<Doc>, name: Text) { exists d :: d in docs && d.name == name }

  lemma {:induction false} DefinerInCorpus(docs: seq<Doc>, n: nat, id: Text)
    requires n <= |docs| && Definer(docs, n, id).Some?
    ensures InCorpus(docs, Definer(docs, n, id).value)
  {
    if Definer(docs, n - 1, id).Some? {
      DefinerInCorpus(docs, n - 1, id);
    } else {
      assert docs[n - 1] in docs;
    }
  }

  lemma {:induction false} PreambleInCorpus(docs: seq<Doc>, n: nat, stem: Text)
    requires n <= |docs| && PreambleOf(docs, n, stem).Some?
    ensures InCorpus(docs, PreambleOf(docs, n, stem).value)
  {
    if EndsWith(docs[n - 1].name, PREAMBLE) && Stem(docs[n - 1].name) == stem {
      assert docs[n - 1] in docs;
    } else {
      PreambleInCorpus(docs, n - 1, stem);
    }
  }

  /** No mined edge is a loop, and both its ends are labels of the corpus. */
  lemma MinedEdgesJoinTwoSections(docs: seq<Doc>, e: Edge)
    requires Mined(docs, e)
    ensures e.subject != e.object_ && InCorpus(docs, e.subject) && InCorpus(docs, e.object_)
  {
    var d :| d in docs && MinedFrom(docs, d, e);
    match e.predicate_
    case DerivedFrom =>
      var id :| id in Ids(d.text, false) && Definer(docs, |docs|, id) == Some(e.object_);
      DefinerInCorpus(docs, |docs|, id);
    case DependsOn =>
      var stem :| stem in Links(d.text) && PreambleOf(docs, |docs|, stem) == Some(e.object_);
      PreambleInCorpus(docs, |docs|, stem);
  }

  // ---- Walks and distances ---------------------------------------------------------------

  ghost predicate HasEdge(edges: seq<Edge>, a: Text, b: Text) {
    exists e :: e in edges && e.subject == a && e.object_ == b
  }

  /** A walk of exactly `n` edges. */
  ghost predicate Walk(edges: seq<Edge>, a: Text, b: Text, n: nat)
    decreases n
  {
    if n == 0 then a == b else exists m :: HasEdge(edges, a, m) && Walk(edges, m, b, n - 1)
  }

  /** The shortest walk has `n` edges. */
  ghost predicate Distance(edges: seq<Edge>, a: Text, b: Text, n: nat) {
    Walk(edges, a, b, n) && forall k: nat :: k < n ==> !Walk(edges, a, b, k)
  }

  lemma DistanceOne(edges: seq<Edge>, a: Text, b: Text)
    ensures Distance(edges, a, b, 1) <==> HasEdge(edges, a, b) && a != b
  {
    assert Walk(edges, b, b, 0);
    assert HasEdge(edges, a, b) ==> HasEdge(edges, a, b) && Walk(edges, b, b, 0);
    assert Walk(edges, a, b, 1) <==> HasEdge(edges, a, b);
  }

  lemma DistanceTwo(edges: seq<Edge>, a: Text, b: Text)
    ensures Distance(edges, a, b, 2) <==>
      a != b && !HasEdge(edges, a, b) && exists m :: HasEdge(edges, a, m) && HasEdge(edges, m, b)
  {
    WalkOne(edges, a, b);
    forall m ensures Walk(edges, m, b, 1) <==> HasEdge(edges, m, b) {
      WalkOne(edges, m, b);
    }
    assert Walk(edges, a, b, 0) <==> a == b;
    if exists m :: HasEdge(edges, a, m) && HasEdge(edges, m, b) {
      var m :| HasEdge(edges, a, m) && HasEdge(edges, m, b);
      assert HasEdge(edges, a, m) && Walk(edges, m, b, 1);
      assert Walk(edges, a, b, 2);
    }
    if Walk(edges, a, b, 2) {
      var m :| HasEdge(edges, a, m) && Walk(edges, m, b, 1);
      assert HasEdge(edges, a, m) && HasEdge(edges, m, b);
    }
  }

  lemma WalkOne(edges: seq<Edge>, a: Text, b: Text)
    ensures Walk(edges, a, b, 1) <==> HasEdge(edges, a, b)
  {
    assert Walk(edges, b, b, 0);
    if HasEdge(edges, a, b) {
      assert HasEdge(edges, a, b) && Walk(edges, b, b, 0);
    }
    if Walk(edges, a, b, 1) {
      var m :| HasEdge(edges, a, m) && Walk(edges, m, b, 0);
      assert m == b;
    }
  }
}
