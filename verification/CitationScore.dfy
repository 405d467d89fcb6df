/**
 Scoring of citation answers (`score_citation_row`) and the per-system totals of the
 head-to-head run. `same` stands for the text match; it is instantiated with
 `TextMatch.TextsMatch`.
 */
module CitationScore {
  import opened Wrappers
  import opened Chars
  import opened CitationAnswer
  import opened Sorting
  import TextMatch

  datatype EvidenceBlock = EvidenceBlock(id: string, text: string)

  datatype Row = Row(
    system: string, skipped: bool, factHit: bool, leak: bool, abstainOk: Option<bool>,
    citationFraud: seq<string>, forbiddenAsserted: bool, nPresented: nat, goldSupported: nat, nGold: nat,
    estTokens: nat, searchMs: Option<real>, answered: bool, passed: bool)

  type Same = (string, string) -> bool

  // ---- One row -------------------------------------------------------------------------

  predicate Presents(presented: seq<EvidenceBlock>, id: string) {
    exists b :: b in presented && b.id == id
  }

  /** The declared ids that were never presented, in the order declared. */
  function Unpresented(used: seq<string>, presented: seq<EvidenceBlock>): seq<string> {
    if used == [] then []
    else (if Presents(presented, used[0]) then [] else [used[0]]) + Unpresented(used[1..], presented)
  }

  /** A presented block that the answer declares to have used matches the fact. */
  predicate Supports(presented: seq<EvidenceBlock>, used: seq<string>, gold: string, same: Same) {
    exists b :: b in presented && b.id in used && same(gold, b.text)
  }

  function CountSupported(golds: seq<string>, presented: seq<EvidenceBlock>, used: seq<string>, same: Same): nat {
    if golds == [] then 0
    else (if Supports(presented, used, golds[0], same) then 1 else 0)
         + CountSupported(golds[1..], presented, used, same)
  }

  predicate Asserts(texts: seq<string>, answer: string, same: Same) {
    exists t :: t in texts && same(t, answer)
  }

  /** A quarter of the bytes of each block, each rounded down. */
  function EstTokens(presented: seq<EvidenceBlock>): nat {
    if presented == [] then 0 else ByteLength(presented[0].text) / 4 + EstTokens(presented[1..])
  }

  function ScoreCitationRow(system: string, expectAbstain: bool, golds: seq<string>, forbidden: seq<string>,
                            presented: seq<EvidenceBlock>, answer: Answer, searchMs: Option<real>, answered: bool,
                            same: Same): Row {
    var fraud := Unpresented(answer.used, presented);
    var supported := CountSupported(golds, presented, answer.used, same);
    var assertsGold := Asserts(golds, answer.text, same);
    var forbiddenAsserted := !assertsGold && Asserts(forbidden, answer.text, same);
    var factHit := !expectAbstain && assertsGold && supported > 0;
    var leak := !expectAbstain && assertsGold && supported == 0;
    var abstainOk := if expectAbstain then Some(answer.abstained && !assertsGold && !forbiddenAsserted) else None;
    var passed := fraud == [] && !forbiddenAsserted
      && (if expectAbstain then abstainOk == Some(true) else if golds == [] then true else factHit);
    Row(system, false, factHit, leak, abstainOk, fraud, forbiddenAsserted, |presented|, supported, |golds|,
        EstTokens(presented), searchMs, answered, passed)
  }

  // ---- Fraud -----------------------------------------------------------------------------

  /** Every declaration of an id that was not presented is reported, as often as declared, and nothing else. */
  lemma {:induction false} FraudIsTheUnpresented(used: seq<string>, presented: seq<EvidenceBlock>, id: string)
    ensures multiset(Unpresented(used, presented))[id] == if Presents(presented, id) then 0 else multiset(used)[id]
  {
    if used != [] {
      FraudIsTheUnpresented(used[1..], presented, id);
      assert used == [used[0]] + used[1..];
    }
  }

  /** Scoring a printed answer with a faithful text reports exactly the printed ids not presented. */
  lemma PrintedAnswerFraud(body: string, ids: seq<string>, alnum: char -> bool, system: string,
                           expectAbstain: bool, golds: seq<string>, forbidden: seq<string>,
                           presented: seq<EvidenceBlock>, searchMs: Option<real>, same: Same)
    requires IsAlnum(alnum) && Faithful(body, alnum) && forall id :: id in ids ==> GoodId(id, alnum)
    ensures var row := ScoreCitationRow(system, expectAbstain, golds, forbidden, presented,
                                        Parsed(Printed(body, ids), alnum), searchMs, true, same);
      && (forall id :: multiset(row.citationFraud)[id] == if Presents(presented, id) then 0 else multiset(ids)[id])
      && (row.passed ==> forall id :: id in ids ==> Presents(presented, id))
  {
    var row := ScoreCitationRow(system, expectAbstain, golds, forbidden, presented,
                                Parsed(Printed(body, ids), alnum), searchMs, true, same);
    PrintedAnswerParsesIff(body, ids, alnum);
    forall id ensures multiset(row.citationFraud)[id] == if Presents(presented, id) then 0 else multiset(ids)[id] {
      FraudIsTheUnpresented(ids, presented, id);
    }
    forall id | row.passed && id in ids ensures Presents(presented, id) {
      assert id in multiset(ids);
    }
  }

  // ---- Hits and leaks -----------------------------------------------------------------------

  lemma {:induction false} SupportedIff(golds: seq<string>, presented: seq<EvidenceBlock>, used: seq<string>,
                                        same: Same)
    ensures CountSupported(golds, presented, used, same) > 0 <==>
      exists g :: g in golds && Supports(presented, used, g, same)
    ensures CountSupported(golds, presented, used, same) <= |golds|
  {
    if golds != [] {
      SupportedIff(golds[1..], presented, used, same);
      assert golds == [golds[0]] + golds[1..];
    }
  }

  /** What a hit is meant to be: one fact both asserted by the answer and supported by a used block. */
  predicate Grounded(golds: seq<string>, presented: seq<EvidenceBlock>, answer: Answer, same: Same) {
    exists g :: g in golds && same(g, answer.text) && Supports(presented, answer.used, g, same)
  }

  /** A row that asserts gold is a hit or a leak and never both; the other rows are neither. */
  lemma HitOrLeak(system: string, expectAbstain: bool, golds: seq<string>, forbidden: seq<string>,
                  presented: seq<EvidenceBlock>, answer: Answer, searchMs: Option<real>, answered: bool, same: Same)
    ensures var row :=
        ScoreCitationRow(system, expectAbstain, golds, forbidden, presented, answer, searchMs, answered, same);
      && !(row.factHit && row.leak)
      && (row.factHit || row.leak <==> !expectAbstain && Asserts(golds, answer.text, same))
      && (row.factHit ==> exists g, b :: g in golds && b in presented && b.id in answer.used && same(g, b.text))
      && (row.leak ==> forall g, b :: g in golds && b in presented && b.id in answer.used ==> !same(g, b.text))
      && (!expectAbstain && Grounded(golds, presented, answer, same) ==> row.factHit)
      && WellScored(row)
  {
    SupportedIff(golds, presented, answer.used, same);
    if CountSupported(golds, presented, answer.used, same) > 0 {
      var g :| g in golds && Supports(presented, answer.used, g, same);
      var b :| b in presented && b.id in answer.used && same(g, b.text);
    } else {
      forall g, b | g in golds && b in presented && b.id in answer.used ensures !same(g, b.text) {
        assert !Supports(presented, answer.used, g, same);
      }
    }
  }

  /** Some fact matches the text. */
  predicate Matched(golds: seq<string>, text: string, same: Same) { exists g :: g in golds && same(g, text) }

  /** One fact matches both texts. */
  predicate MatchedTogether(golds: seq<string>, a: string, b: string, same: Same) {
    exists g :: g in golds && same(g, a) && same(g, b)
  }

  /** A probe that is not an abstain probe is hit. */
  predicate Hit(golds: seq<string>, presented: seq<EvidenceBlock>, answer: Answer, same: Same) {
    ScoreCitationRow("", false, golds, [], presented, answer, None, true, same).factHit
  }

  /** The parts of a row that are not evidence do not matter for its hit. */
  lemma HitIs(system: string, expectAbstain: bool, golds: seq<string>, forbidden: seq<string>,
              presented: seq<EvidenceBlock>, answer: Answer, searchMs: Option<real>, answered: bool, same: Same)
    ensures var row :=
        ScoreCitationRow(system, expectAbstain, golds, forbidden, presented, answer, searchMs, answered, same);
      row.factHit <==> !expectAbstain && Hit(golds, presented, answer, same)
    ensures Hit(golds, presented, answer, same) <==>
      && Matched(golds, answer.text, same)
      && exists b :: b in presented && b.id in answer.used && Matched(golds, b.text, same)
  {
    SupportedIff(golds, presented, answer.used, same);
    if exists g :: g in golds && Supports(presented, answer.used, g, same) {
      var g :| g in golds && Supports(presented, answer.used, g, same);
      var b :| b in presented && b.id in answer.used && same(g, b.text);
      assert Matched(golds, b.text, same);
    }
    if b :| b in presented && b.id in answer.used && Matched(golds, b.text, same) {
      var g :| g in golds && same(g, b.text);
      assert Supports(presented, answer.used, g, same);
    }
  }

  /** Facts that match two texts between them include one that matches both. */
  ghost predicate FactsAgree(golds: seq<string>, same: Same) {
    forall a: string, b: string ::
      Matched(golds, a, same) && Matched(golds, b, same) ==> MatchedTogether(golds, a, b, same)
  }

  /**
   When a hit means what it says. For given facts, every hit, whatever is presented
   and answered, is grounded in one fact if and only if the facts agree; a probe's
   facts can be checked for that before anything is asked.
   */
  lemma HitsAreGroundedIff(golds: seq<string>, same: Same)
    ensures FactsAgree(golds, same) <==>
      forall presented: seq<EvidenceBlock>, answer: Answer ::
        Hit(golds, presented, answer, same) ==> Grounded(golds, presented, answer, same)
  {
    if FactsAgree(golds, same) {
      forall presented: seq<EvidenceBlock>, answer: Answer | Hit(golds, presented, answer, same)
        ensures Grounded(golds, presented, answer, same)
      {
        AgreeingHitIsGrounded(golds, presented, answer, same);
      }
    }
    forall a: string, b: string |
        Matched(golds, a, same) && Matched(golds, b, same) && !MatchedTogether(golds, a, b, same)
      ensures Hit(golds, CiteOne(b), Answer(a, ["b"], false), same)
      ensures !Grounded(golds, CiteOne(b), Answer(a, ["b"], false), same)
    {
      DisagreementHits(golds, a, b, same);
    }
  }

  function CiteOne(text: string): seq<EvidenceBlock> { [EvidenceBlock("b", text)] }

  lemma AgreeingHitIsGrounded(golds: seq<string>, presented: seq<EvidenceBlock>, answer: Answer, same: Same)
    requires FactsAgree(golds, same) && Hit(golds, presented, answer, same)
    ensures Grounded(golds, presented, answer, same)
  {
    HitIs("", false, golds, [], presented, answer, None, true, same);
    var b :| b in presented && b.id in answer.used && Matched(golds, b.text, same);
    assert MatchedTogether(golds, answer.text, b.text, same);
    var g :| g in golds && same(g, answer.text) && same(g, b.text);
    assert Supports(presented, answer.used, g, same);
  }

  /** Assert the one text, cite the other. */
  lemma DisagreementHits(golds: seq<string>, a: string, b: string, same: Same)
    requires Matched(golds, a, same) && Matched(golds, b, same) && !MatchedTogether(golds, a, b, same)
    ensures Hit(golds, CiteOne(b), Answer(a, ["b"], false), same)
    ensures !Grounded(golds, CiteOne(b), Answer(a, ["b"], false), same)
  {
    var answer := Answer(a, ["b"], false);
    HitIs("", false, golds, [], CiteOne(b), answer, None, true, same);
    assert CiteOne(b)[0] in CiteOne(b) && "b" in answer.used;
  }

  /** A single fact always agrees with itself. */
  lemma OneFactAgrees(gold: string, same: Same)
    ensures FactsAgree([gold], same)
  {
    forall a: string, b: string | Matched([gold], a, same) && Matched([gold], b, same)
      ensures MatchedTogether([gold], a, b, same)
    {
      assert gold in [gold];
    }
  }

  /** Two facts that do not match each other never agree. */
  lemma TwoFactsDisagree(g: string, h: string, norm: string -> string)
    requires g != "" && h != "" && !TextMatch.TextsMatch(g, h, norm)
    ensures !FactsAgree([g, h], (a, b) => TextMatch.TextsMatch(a, b, norm))
  {
    var same: Same := (a, b) => TextMatch.TextsMatch(a, b, norm);
    TextMatch.MatchesItself(g, norm);
    TextMatch.MatchesItself(h, norm);
    TextMatch.MatchIsSymmetric(g, h, norm);
    assert same(g, g) && same(h, h) && !same(g, h) && !same(h, g);
    assert [g, h][0] == g && [g, h][1] == h;
    assert Matched([g, h], g, same) && Matched([g, h], h, same) && !MatchedTogether([g, h], g, h, same);
  }

  /** An answer without a word asserts every fact, and so passes when it cites a block that supports one. */
  lemma WordlessAnswerPasses(system: string, golds: seq<string>, forbidden: seq<string>, presented: seq<EvidenceBlock>,
                             answer: Answer, searchMs: Option<real>, alnum: char -> bool, lower: char -> string,
                             gold: string)
    requires TextMatch.Lowers(alnum, lower)
    requires answer.text != "" && forall i :: 0 <= i < |answer.text| ==> !alnum(answer.text[i])
    requires Unpresented(answer.used, presented) == []
    requires gold in golds && gold != ""
    ensures var norm := (s: string) => TextMatch.Normalize(s, alnum, lower);
      var same: Same := (a, b) => TextMatch.TextsMatch(a, b, norm);
      Supports(presented, answer.used, gold, same) ==>
        var row := ScoreCitationRow(system, false, golds, forbidden, presented, answer, searchMs, true, same);
        row.factHit && row.passed
  {
    var norm := (s: string) => TextMatch.Normalize(s, alnum, lower);
    var same: Same := (a, b) => TextMatch.TextsMatch(a, b, norm);
    TextMatch.NormalFormIsEmptyIff(answer.text, alnum, lower);
    TextMatch.MatchWithoutCommonTextIff(gold, answer.text, norm);
    assert same(gold, answer.text);
    SupportedIff(golds, presented, answer.used, same);
  }

  // ---- What a row passes for ---------------------------------------------------------------------

  /** Some forbidden text is asserted and no gold with it. */
  predicate Breach(golds: seq<string>, forbidden: seq<string>, text: string, same: Same) {
    Matched(forbidden, text, same) && !Matched(golds, text, same)
  }

  /**
   An abstain probe passes exactly when the answer abstains, asserts neither gold nor
   forbidden facts and cites only what was presented.
   */
  lemma AbstainProbePassesIff(system: string, golds: seq<string>, forbidden: seq<string>,
                              presented: seq<EvidenceBlock>, answer: Answer, searchMs: Option<real>, answered: bool,
                              same: Same)
    ensures var row := ScoreCitationRow(system, true, golds, forbidden, presented, answer, searchMs, answered, same);
      var clean := answer.abstained && !Matched(golds, answer.text, same) && !Matched(forbidden, answer.text, same);
      && (row.abstainOk == Some(true) <==> clean)
      && (row.abstainOk == Some(false) <==> !clean)
      && (row.passed <==> clean && forall id :: id in answer.used ==> Presents(presented, id))
  {
    NoFraudIff(answer.used, presented);
  }

  /**
   Another probe passes exactly when it cites only what was presented, breaches
   nothing, and hits if it has gold at all.
   */
  lemma GoldProbePassesIff(system: string, golds: seq<string>, forbidden: seq<string>,
                           presented: seq<EvidenceBlock>, answer: Answer, searchMs: Option<real>, answered: bool,
                           same: Same)
    ensures var row := ScoreCitationRow(system, false, golds, forbidden, presented, answer, searchMs, answered, same);
      && row.abstainOk.None?
      && (row.passed <==>
            && (forall id :: id in answer.used ==> Presents(presented, id))
            && !Breach(golds, forbidden, answer.text, same)
            && (golds != [] ==> Hit(golds, presented, answer, same)))
  {
    NoFraudIff(answer.used, presented);
    HitIs(system, false, golds, forbidden, presented, answer, searchMs, answered, same);
  }

  /** A breach is recorded on every probe and fails it. */
  lemma BreachFailsTheRow(system: string, expectAbstain: bool, golds: seq<string>, forbidden: seq<string>,
                          presented: seq<EvidenceBlock>, answer: Answer, searchMs: Option<real>, answered: bool,
                          same: Same)
    ensures var row :=
        ScoreCitationRow(system, expectAbstain, golds, forbidden, presented, answer, searchMs, answered, same);
      && (row.forbiddenAsserted <==> Breach(golds, forbidden, answer.text, same))
      && (Breach(golds, forbidden, answer.text, same) ==> !row.passed)
  {
  }

  lemma {:induction false} NoFraudIff(used: seq<string>, presented: seq<EvidenceBlock>)
    ensures Unpresented(used, presented) == [] <==> forall id :: id in used ==> Presents(presented, id)
  {
    if used != [] {
      NoFraudIff(used[1..], presented);
      assert used == [used[0]] + used[1..];
    }
  }

  /** The gold facts that a used block supports, by position. */
  function SupportedAt(golds: seq<string>, presented: seq<EvidenceBlock>, used: seq<string>, same: Same): set<nat> {
    set i | 0 <= i < |golds| && Supports(presented, used, golds[i], same)
  }

  /** The row counts each supported fact once, and what was presented and asked for. */
  lemma RowCounts(system: string, expectAbstain: bool, golds: seq<string>, forbidden: seq<string>,
                  presented: seq<EvidenceBlock>, answer: Answer, searchMs: Option<real>, answered: bool, same: Same)
    ensures var row :=
        ScoreCitationRow(system, expectAbstain, golds, forbidden, presented, answer, searchMs, answered, same);
      && row.goldSupported == |SupportedAt(golds, presented, answer.used, same)| <= row.nGold == |golds|
      && row.nPresented == |presented|
      && 4 * row.estTokens <= TotalBytes(presented) <= 4 * row.estTokens + 3 * |presented|
      && row.system == system && !row.skipped && row.searchMs == searchMs && row.answered == answered
  {
    CountIsCardinality(golds, presented, answer.used, same);
    SupportedIff(golds, presented, answer.used, same);
    TokensAreQuarters(presented);
  }

  function TotalBytes(presented: seq<EvidenceBlock>): nat {
    if presented == [] then 0 else ByteLength(presented[0].text) + TotalBytes(presented[1..])
  }

  /** Rounding down loses at most three bytes a block. */
  lemma {:induction false} TokensAreQuarters(presented: seq<EvidenceBlock>)
    ensures 4 * EstTokens(presented) <= TotalBytes(presented) <= 4 * EstTokens(presented) + 3 * |presented|
  {
    if presented != [] {
      TokensAreQuarters(presented[1..]);
    }
  }

  lemma {:induction false} SupportedSnoc(golds: seq<string>, last: string, presented: seq<EvidenceBlock>,
                                         used: seq<string>, same: Same)
    ensures CountSupported(golds + [last], presented, used, same)
      == CountSupported(golds, presented, used, same) + One(Supports(presented, used, last, same))
  {
    if golds == [] {
      assert golds + [last] == [last];
    } else {
      assert (golds + [last])[1..] == golds[1..] + [last];
      SupportedSnoc(golds[1..], last, presented, used, same);
    }
  }

  lemma SupportedAtSnoc(golds: seq<string>, last: string, presented: seq<EvidenceBlock>, used: seq<string>, same: Same)
    ensures |SupportedAt(golds + [last], presented, used, same)|
      == |SupportedAt(golds, presented, used, same)| + One(Supports(presented, used, last, same))
  {
    var before, after := SupportedAt(golds, presented, used, same), SupportedAt(golds + [last], presented, used, same);
    var yes := Supports(presented, used, last, same);
    forall i: nat ensures i in after <==> i in before || (i == |golds| && yes) {
      assert i < |golds| ==> (golds + [last])[i] == golds[i];
    }
    assert after == before + (if yes then {|golds| as nat} else {});
    assert |golds| !in before;
  }

  lemma {:induction false} CountIsCardinality(golds: seq<string>, presented: seq<EvidenceBlock>, used: seq<string>,
                                              same: Same)
    ensures CountSupported(golds, presented, used, same) == |SupportedAt(golds, presented, used, same)|
    decreases |golds|
  {
    if golds == [] {
      assert SupportedAt(golds, presented, used, same) == {};
    } else {
      var init, last := golds[..|golds| - 1], golds[|golds| - 1];
      CountIsCardinality(init, presented, used, same);
      SupportedSnoc(init, last, presented, used, same);
      SupportedAtSnoc(init, last, presented, used, same);
      assert golds == init + [last];
    }
  }

  // ---- Totals ----------------------------------------------------------------------------------

  datatype SystemStats = SystemStats(
    scored: nat, factHit: nat, leak: nat, abstainOk: nat, abstainMiss: nat, citationFraudRows: nat,
    forbiddenAsserted: nat, presentedBlocks: nat, estTokens: nat, searchMsP50: real, searchMsP95: real,
    answerCalls: nat)

  const NO_STATS := SystemStats(0, 0, 0, 0, 0, 0, 0, 0, 0, 0.0, 0.0, 0)

  function One(b: bool): nat { if b then 1 else 0 }

  function AddRow(st: SystemStats, r: Row): SystemStats {
    SystemStats(
      st.scored + 1, st.factHit + One(r.factHit), st.leak + One(r.leak),
      st.abstainOk + One(r.abstainOk == Some(true)), st.abstainMiss + One(r.abstainOk == Some(false)),
      st.citationFraudRows + One(r.citationFraud != []), st.forbiddenAsserted + One(r.forbiddenAsserted),
      st.presentedBlocks + r.nPresented, st.estTokens + r.estTokens, st.searchMsP50, st.searchMsP95,
      st.answerCalls + One(r.answered))
  }

  /** The search times of a system's scored rows, in row order. */
  function Latencies(rows: seq<Row>, system: string): seq<real> {
    if rows == [] then []
    else
      Latencies(rows[..|rows| - 1], system) + OwnTime(rows[|rows| - 1], system)
  }

  function OwnTime(r: Row, system: string): seq<real> {
    if r.skipped || r.system != system || r.searchMs.None? then [] else [r.searchMs.value]
  }

  function RealOrder(): (real, real) -> bool { (a: real, b: real) => a <= b }

  /** The value with `k` values before it in sorted order. */
  function Ranked(times: seq<real>, k: nat): real {
    var sorted := Sort(times, RealOrder());
    if k < |sorted| then sorted[k] else 0.0
  }

  function Median(times: seq<real>): real { Ranked(times, |times| / 2) }

  function Percentile95(times: seq<real>): real {
    Ranked(times, |times| * 95 / 100)
  }

  function WithLatencies(st: SystemStats, times: seq<real>): SystemStats {
    st.(searchMsP50 := Median(times), searchMsP95 := Percentile95(times))
  }

  function StatsOf(rows: seq<Row>, system: string): SystemStats {
    if rows == [] then NO_STATS
    else
      AddOwn(StatsOf(rows[..|rows| - 1], system), rows[|rows| - 1], system)
  }

  /** The row counts for its own system, unless it was skipped. */
  function AddOwn(st: SystemStats, r: Row, system: string): SystemStats {
    if r.skipped || r.system != system then st else AddRow(st, r)
  }

  predicate HasRow(rows: seq<Row>, system: string) {
    exists r :: r in rows && !r.skipped && r.system == system
  }

  /** One entry for each system with a scored row, with the totals of its rows and the ranks of its search times. */
  method Aggregate(rows: seq<Row>) returns (bySystem: map<string, SystemStats>)
    ensures forall s :: s in bySystem <==> HasRow(rows, s)
    ensures forall s :: s in bySystem ==> bySystem[s] == WithLatencies(StatsOf(rows, s), Latencies(rows, s))
  {
    bySystem := map[];
    var searchMs: map<string, seq<real>> := map[];
    for n := 0 to |rows|
      invariant Totals(rows[..n], bySystem) && Times(rows[..n], searchMs)
    {
      var r := rows[n];
      assert rows[..n + 1] == rows[..n] + [r];
      TotalsSnoc(rows[..n], r, bySystem);
      TimesSnoc(rows[..n], r, searchMs);
      if !r.skipped {
        var st := if r.system in bySystem then bySystem[r.system] else NO_STATS;
        bySystem := bySystem[r.system := AddRow(st, r)];
        if r.searchMs.Some? {
          searchMs := searchMs[r.system := TimesFor(searchMs, r.system) + [r.searchMs.value]];
        }
      }
    }
    assert rows[..|rows|] == rows;
    bySystem := RankTimes(rows, bySystem, searchMs);
  }

  /** The second loop: sort each system's search times and read off the ranks. */
  method RankTimes(ghost rows: seq<Row>, totals: map<string, SystemStats>, searchMs: map<string, seq<real>>)
    returns (ranked: map<string, SystemStats>)
    requires Totals(rows, totals) && Times(rows, searchMs)
    ensures ranked.Keys == totals.Keys
    ensures forall s :: s in ranked ==> ranked[s] == WithLatencies(totals[s], Latencies(rows, s))
  {
    ranked := totals;
    var todo := totals.Keys;
    while todo != {}
      invariant todo <= totals.Keys && RankedBut(rows, totals, ranked, todo)
    {
      var s :| s in todo;
      if s in searchMs {
        var st := RankOne(totals[s], searchMs[s]);
        ranked := ranked[s := st];
      } else {
        NoRowsNoRanks(rows, totals, s);
      }
      todo := todo - {s};
    }
  }

  /** Every entry but those of the systems still to do has its ranks. */
  ghost predicate RankedBut(rows: seq<Row>, totals: map<string, SystemStats>, ranked: map<string, SystemStats>,
                            todo: set<string>) {
    && ranked.Keys == totals.Keys
    && (forall s :: s in totals && s in todo ==> ranked[s] == totals[s])
    && (forall s :: s in totals && s !in todo ==> ranked[s] == WithLatencies(totals[s], Latencies(rows, s)))
  }

  /** The bound on the second index never matters. */
  method RankOne(st: SystemStats, times: seq<real>) returns (ranked: SystemStats)
    ensures ranked == WithLatencies(st, times)
  {
    var v := Sort(times, RealOrder());
    SortedTimes(times);
    var last := if |v| == 0 then 0 else |v| - 1;
    var at95 := if |v| * 95 / 100 < last then |v| * 95 / 100 else last;
    ranked := st.(
      searchMsP50 := if |v| / 2 < |v| then v[|v| / 2] else 0.0,
      searchMsP95 := if at95 < |v| then v[at95] else 0.0);
  }

  lemma RealOrderIsTotal()
    ensures TotalOrder(RealOrder())
  {
  }

  lemma SortedTimes(times: seq<real>)
    ensures |Sort(times, RealOrder())| == |times|
    ensures Sorted(Sort(times, RealOrder()), RealOrder()) && multiset(Sort(times, RealOrder())) == multiset(times)
  {
    RealOrderIsTotal();
    SortSorts(times, RealOrder());
    assert |multiset(times)| == |times|;
  }

  function TimesFor(searchMs: map<string, seq<real>>, system: string): seq<real> {
    if system in searchMs then searchMs[system] else []
  }

  ghost predicate Times(rows: seq<Row>, searchMs: map<string, seq<real>>) {
    forall s :: TimesFor(searchMs, s) == Latencies(rows, s)
  }

  lemma TimesSnoc(rows: seq<Row>, r: Row, searchMs: map<string, seq<real>>)
    requires Times(rows, searchMs)
    ensures r.skipped || r.searchMs.None? ==> Times(rows + [r], searchMs)
    ensures !r.skipped && r.searchMs.Some? ==>
      Times(rows + [r], searchMs[r.system := TimesFor(searchMs, r.system) + [r.searchMs.value]])
  {
    forall s ensures Latencies(rows + [r], s) == TimesFor(searchMs, s) + OwnTime(r, s) {
      StatsSnoc(rows, r, s);
      assert TimesFor(searchMs, s) == Latencies(rows, s);
    }
    if !r.skipped && r.searchMs.Some? {
      var more := searchMs[r.system := TimesFor(searchMs, r.system) + [r.searchMs.value]];
      forall s ensures TimesFor(more, s) == TimesFor(searchMs, s) + OwnTime(r, s) {
      }
    }
  }

  lemma NoTimesNoRanks(st: SystemStats)
    requires st.searchMsP50 == 0.0 && st.searchMsP95 == 0.0
    ensures WithLatencies(st, []) == st
  {
    assert Sort([], RealOrder()) == [];
    assert Median([]) == 0.0 && Percentile95([]) == 0.0;
  }

  lemma NoRowsNoRanks(rows: seq<Row>, totals: map<string, SystemStats>, s: string)
    requires Totals(rows, totals) && s in totals && Latencies(rows, s) == []
    ensures WithLatencies(totals[s], Latencies(rows, s)) == totals[s]
  {
    UnrankedStats(rows, s);
    NoTimesNoRanks(totals[s]);
  }

  lemma {:induction false} UnrankedStats(rows: seq<Row>, s: string)
    ensures StatsOf(rows, s).searchMsP50 == StatsOf(rows, s).searchMsP95 == 0.0
  {
    if rows != [] {
      UnrankedStats(rows[..|rows| - 1], s);
    }
  }

  ghost predicate Totals(rows: seq<Row>, bySystem: map<string, SystemStats>) {
    && (forall s :: s in bySystem <==> HasRow(rows, s))
    && (forall s :: s in bySystem ==> bySystem[s] == StatsOf(rows, s))
  }

  lemma TotalsSnoc(rows: seq<Row>, r: Row, bySystem: map<string, SystemStats>)
    requires Totals(rows, bySystem)
    ensures r.skipped ==> Totals(rows + [r], bySystem)
    ensures !r.skipped ==>
      var st := if r.system in bySystem then bySystem[r.system] else NO_STATS;
      Totals(rows + [r], bySystem[r.system := AddRow(st, r)])
  {
    assert (rows + [r])[..|rows|] == rows;
    forall s ensures HasRow(rows + [r], s) <==> HasRow(rows, s) || (!r.skipped && r.system == s) {
      if HasRow(rows, s) {
        var q :| q in rows && !q.skipped && q.system == s;
        assert q in rows + [r];
      }
      if !r.skipped && r.system == s {
        assert r in rows + [r];
      }
    }
    if r.system !in bySystem {
      NoRowsNoStats(rows, r.system);
    }
  }

  lemma {:induction false} NoRowsNoStats(rows: seq<Row>, system: string)
    requires !HasRow(rows, system)
    ensures StatsOf(rows, system) == NO_STATS
  {
    if rows != [] {
      assert rows[|rows| - 1] in rows;
      assert forall r :: r in rows[..|rows| - 1] ==> r in rows;
      NoRowsNoStats(rows[..|rows| - 1], system);
    }
  }

  // ---- Counters ---------------------------------------------------------------------------------

  /** How many of a system's scored rows are such. */
  function CountWhere(rows: seq<Row>, system: string, such: Row -> bool): nat {
    |set i | 0 <= i < |rows| && !rows[i].skipped && rows[i].system == system && such(rows[i])|
  }

  function SumWhere(rows: seq<Row>, system: string, amount: Row -> nat): nat {
    if rows == [] then 0
    else
      var last := rows[|rows| - 1];
      SumWhere(rows[..|rows| - 1], system, amount)
        + if !last.skipped && last.system == system then amount(last) else 0
  }

  lemma CountSnocWhere(rows: seq<Row>, r: Row, system: string, such: Row -> bool)
    ensures CountWhere(rows + [r], system, such)
      == CountWhere(rows, system, such) + One(!r.skipped && r.system == system && such(r))
  {
    var more := rows + [r];
    var before := set i | 0 <= i < |rows| && !rows[i].skipped && rows[i].system == system && such(rows[i]);
    var after := set i | 0 <= i < |more| && !more[i].skipped && more[i].system == system && such(more[i]);
    assert after == before + (if !r.skipped && r.system == system && such(r) then {|rows|} else {}) by {
      forall i ensures i in after <==> i in before || (i == |rows| && !r.skipped && r.system == system && such(r)) {
        assert 0 <= i < |rows| ==> more[i] == rows[i];
      }
    }
    assert |rows| !in before;
  }

  /** A counter of a system's entry counts exactly the rows it is named for. */
  lemma {:induction false} CountersCount(rows: seq<Row>, system: string)
    ensures var st := StatsOf(rows, system);
      && st.scored == CountWhere(rows, system, r => true)
      && st.factHit == CountWhere(rows, system, (r: Row) => r.factHit)
      && st.leak == CountWhere(rows, system, (r: Row) => r.leak)
      && st.answerCalls == CountWhere(rows, system, (r: Row) => r.answered)
  {
    if rows == [] {
      NoRowsCount(system);
    } else {
      var init, last := rows[..|rows| - 1], rows[|rows| - 1];
      assert rows == init + [last];
      CountersCount(init, system);
      CountSnocWhere(init, last, system, r => true);
      CountSnocWhere(init, last, system, (r: Row) => r.factHit);
      CountSnocWhere(init, last, system, (r: Row) => r.leak);
      CountSnocWhere(init, last, system, (r: Row) => r.answered);
    }
  }

  lemma NoRowsCount(system: string)
    ensures forall such: Row -> bool :: CountWhere([], system, such) == 0
  {
  }

  lemma {:induction false} FaultCountersCount(rows: seq<Row>, system: string)
    ensures var st := StatsOf(rows, system);
      && st.abstainOk == CountWhere(rows, system, (r: Row) => r.abstainOk == Some(true))
      && st.abstainMiss == CountWhere(rows, system, (r: Row) => r.abstainOk == Some(false))
      && st.citationFraudRows == CountWhere(rows, system, (r: Row) => r.citationFraud != [])
      && st.forbiddenAsserted == CountWhere(rows, system, (r: Row) => r.forbiddenAsserted)
  {
    if rows == [] {
      NoRowsCount(system);
    } else {
      var init, last := rows[..|rows| - 1], rows[|rows| - 1];
      assert rows == init + [last];
      FaultCountersCount(init, system);
      CountSnocWhere(init, last, system, (r: Row) => r.abstainOk == Some(true));
      CountSnocWhere(init, last, system, (r: Row) => r.abstainOk == Some(false));
      CountSnocWhere(init, last, system, (r: Row) => r.citationFraud != []);
      CountSnocWhere(init, last, system, (r: Row) => r.forbiddenAsserted);
    }
  }

  /** The two sums are sums over the same rows. */
  lemma {:induction false} SumsSum(rows: seq<Row>, system: string)
    ensures StatsOf(rows, system).presentedBlocks == SumWhere(rows, system, (r: Row) => r.nPresented)
    ensures StatsOf(rows, system).estTokens == SumWhere(rows, system, (r: Row) => r.estTokens)
  {
    if rows != [] {
      SumsSum(rows[..|rows| - 1], system);
    }
  }

  // ---- Ranks --------------------------------------------------------------------------------

  function Count(times: seq<real>, p: real -> bool): nat {
    if times == [] then 0 else One(p(times[0])) + Count(times[1..], p)
  }

  lemma {:induction false} CountOfInsert(x: real, s: seq<real>, p: real -> bool)
    ensures Count(Insert(x, s, RealOrder()), p) == One(p(x)) + Count(s, p)
  {
    if s == [] || x <= s[0] {
      assert ([x] + s)[1..] == s;
    } else {
      CountOfInsert(x, s[1..], p);
      assert ([s[0]] + Insert(x, s[1..], RealOrder()))[1..] == Insert(x, s[1..], RealOrder());
    }
  }

  lemma {:induction false} CountOfSort(times: seq<real>, p: real -> bool)
    ensures Count(Sort(times, RealOrder()), p) == Count(times, p)
  {
    if times != [] {
      CountOfSort(times[1..], p);
      CountOfInsert(times[0], Sort(times[1..], RealOrder()), p);
    }
  }

  lemma {:induction false} CountAtLeast(s: seq<real>, from: nat, to: nat, p: real -> bool)
    requires from <= to <= |s| && forall i :: from <= i < to ==> p(s[i])
    ensures Count(s, p) >= to - from
  {
    if s != [] {
      CountAtLeast(s[1..], if from == 0 then 0 else from - 1, if to == 0 then 0 else to - 1, p);
    }
  }

  /**
   A rank is one of the times; at least `k + 1` times are no longer and at least the
   other `n - k` no shorter.
   */
  lemma RankedSplitsTheTimes(times: seq<real>, k: nat)
    requires k < |times|
    ensures var x := Ranked(times, k);
      && x in times
      && Count(times, t => t <= x) >= k + 1
      && Count(times, t => t >= x) >= |times| - k
  {
    SortedTimes(times);
    var s, x := Sort(times, RealOrder()), Ranked(times, k);
    assert s[k] in multiset(s);
    CountOfSort(times, t => t <= x);
    CountOfSort(times, t => t >= x);
    CountAtLeast(s, 0, k + 1, t => t <= x);
    CountAtLeast(s, k, |s|, t => t >= x);
  }

  /** The median has at least half of the times at or below it and at least half at or above. */
  lemma MedianHalves(times: seq<real>)
    requires times != []
    ensures var m := Median(times);
      && m in times
      && 2 * Count(times, t => t <= m) > |times|
      && 2 * Count(times, t => t >= m) >= |times|
  {
    RankedSplitsTheTimes(times, |times| / 2);
  }

  /** The 95th percentile has at least 95 in a hundred of the times at or below it and one in twenty at or above. */
  lemma PercentileSplits(times: seq<real>)
    requires times != []
    ensures var p := Percentile95(times);
      && p in times
      && 100 * Count(times, t => t <= p) > 95 * |times|
      && 100 * Count(times, t => t >= p) >= 5 * |times|
  {
    RankedSplitsTheTimes(times, |times| * 95 / 100);
  }

  lemma MedianIsNoLonger(times: seq<real>)
    requires times != []
    ensures Median(times) <= Percentile95(times)
  {
    SortedTimes(times);
    var s := Sort(times, RealOrder());
    assert |times| / 2 <= |times| * 95 / 100 < |s|;
    RanksGrow(s, |times| / 2, |times| * 95 / 100);
  }

  lemma RanksGrow(s: seq<real>, i: nat, j: nat)
    requires Sorted(s, RealOrder()) && i <= j < |s|
    ensures s[i] <= s[j]
  {
    assert i < j ==> RealOrder()(s[i], s[j]);
  }

  /** The whole entry of a system is the same in whatever order the rows are listed. */
  lemma EntryIgnoresRowOrder(a: seq<Row>, b: seq<Row>, system: string)
    requires multiset(a) == multiset(b)
    ensures WithLatencies(StatsOf(a, system), Latencies(a, system)) ==
      WithLatencies(StatsOf(b, system), Latencies(b, system))
  {
    TotalsIgnoreRowOrder(a, b, system);
    SortedTimes(Latencies(a, system));
    SortedTimes(Latencies(b, system));
    RealOrderIsTotal();
    SortIgnoresOrder(Latencies(a, system), Latencies(b, system), RealOrder());
  }

  lemma {:induction false} TotalsIgnoreRowOrder(a: seq<Row>, b: seq<Row>, system: string)
    requires multiset(a) == multiset(b)
    ensures StatsOf(a, system) == StatsOf(b, system)
    ensures multiset(Latencies(a, system)) == multiset(Latencies(b, system))
  {
    assert |multiset(a)| == |a| && |multiset(b)| == |b|;
    if a != [] {
      var init, r := a[..|a| - 1], a[|a| - 1];
      assert a == init + [r];
      var i := LastIsIn(a, b);
      TotalsIgnoreRowOrder(init, b[..i] + b[i + 1..], system);
      StatsMoveLast(b[..i], r, b[i + 1..], system);
      TimesMoveLast(b[..i], r, b[i + 1..], system);
      StatsSnoc(init, r, system);
      StatsSnoc(b[..i] + b[i + 1..], r, system);
    }
  }

  /** Where the last row of one order stands in another. */
  lemma LastIsIn(a: seq<Row>, b: seq<Row>) returns (i: nat)
    requires multiset(a) == multiset(b) && a != []
    ensures i < |b| && b == b[..i] + [a[|a| - 1]] + b[i + 1..]
    ensures multiset(a[..|a| - 1]) == multiset(b[..i] + b[i + 1..])
  {
    var r := a[|a| - 1];
    assert r in multiset(b);
    i :| i < |b| && b[i] == r;
    assert b == b[..i] + [r] + b[i + 1..];
    assert a == a[..|a| - 1] + [r];
    WithOne(b[..i], r, b[i + 1..]);
    WithLast(a[..|a| - 1], r);
    CancelOne(multiset(a[..|a| - 1]), multiset(b[..i] + b[i + 1..]), r);
  }

  lemma WithOne(a: seq<Row>, r: Row, b: seq<Row>)
    ensures multiset(a + [r] + b) == multiset(a + b) + multiset{r}
  {
  }

  lemma WithLast(a: seq<Row>, r: Row)
    ensures multiset(a + [r]) == multiset(a) + multiset{r}
  {
  }

  /** What one more row adds. */
  lemma StatsSnoc(rows: seq<Row>, r: Row, system: string)
    ensures StatsOf(rows + [r], system) == AddOwn(StatsOf(rows, system), r, system)
    ensures Latencies(rows + [r], system) == Latencies(rows, system) + OwnTime(r, system)
  {
    assert (rows + [r])[..|rows|] == rows;
  }

  lemma {:induction false} StatsMoveLast(a: seq<Row>, r: Row, b: seq<Row>, system: string)
    ensures StatsOf(a + [r] + b, system) == AddOwn(StatsOf(a + b, system), r, system)
  {
    if b == [] {
      assert a + [r] + b == a + [r] && a + b == a;
      StatsSnoc(a, r, system);
    } else {
      var init, last := b[..|b| - 1], b[|b| - 1];
      StatsMoveLast(a, r, init, system);
      assert a + [r] + b == (a + [r] + init) + [last] && a + b == (a + init) + [last];
      StatsSnoc(a + [r] + init, last, system);
      StatsSnoc(a + init, last, system);
      AddsCommute(StatsOf(a + init, system), r, last, system);
    }
  }

  lemma {:induction false} LatenciesJoin(a: seq<Row>, b: seq<Row>, system: string)
    ensures Latencies(a + b, system) == Latencies(a, system) + Latencies(b, system)
  {
    if b == [] {
      assert a + b == a;
    } else {
      LatenciesJoin(a, b[..|b| - 1], system);
      assert (a + b)[..|a + b| - 1] == a + b[..|b| - 1] && (a + b)[|a + b| - 1] == b[|b| - 1];
    }
  }

  lemma TimesMoveLast(a: seq<Row>, r: Row, b: seq<Row>, system: string)
    ensures multiset(Latencies(a + [r] + b, system)) ==
      multiset(Latencies(a + b, system)) + multiset(OwnTime(r, system))
  {
    LatenciesJoin(a + [r], b, system);
    LatenciesJoin(a, b, system);
    StatsSnoc(a, r, system);
  }

  lemma AddsCommute(st: SystemStats, r: Row, q: Row, system: string)
    ensures AddOwn(AddOwn(st, r, system), q, system) == AddOwn(AddOwn(st, q, system), r, system)
  {
  }

  /** What scoring guarantees of a row: an abstain probe has no hit and no leak, and no row has both. */
  predicate WellScored(r: Row) {
    !(r.factHit && r.leak) && (r.abstainOk.Some? ==> !r.factHit && !r.leak)
  }

  /** A scored row that asserts no gold and is no abstain probe. */
  predicate Silent(r: Row) { !r.factHit && !r.leak && r.abstainOk.None? }

  function CountSilent(rows: seq<Row>, system: string): nat {
    if rows == [] then 0
    else
      var last := rows[|rows| - 1];
      CountSilent(rows[..|rows| - 1], system) + One(!last.skipped && last.system == system && Silent(last))
  }

  /** Conservation: each scored row is counted in exactly one of five outcomes. */
  lemma {:induction false} ScoredRowsArePartitioned(rows: seq<Row>, system: string)
    requires forall r :: r in rows ==> WellScored(r)
    ensures var st := StatsOf(rows, system);
      && st.scored == st.factHit + st.leak + st.abstainOk + st.abstainMiss + CountSilent(rows, system)
      && st.citationFraudRows <= st.scored && st.forbiddenAsserted <= st.scored && st.answerCalls <= st.scored
  {
    if rows != [] {
      var last := rows[|rows| - 1];
      assert WellScored(last);
      assert last.abstainOk.Some? ==> (last.abstainOk == Some(true) || last.abstainOk == Some(false)) by {
        if last.abstainOk.Some? && last.abstainOk.value {
          assert last.abstainOk == Some(true);
        }
      }
      assert forall r :: r in rows[..|rows| - 1] ==> r in rows;
      ScoredRowsArePartitioned(rows[..|rows| - 1], system);
    }
  }

  function CountScored(rows: seq<Row>): nat {
    if rows == [] then 0 else CountScored(rows[..|rows| - 1]) + One(!rows[|rows| - 1].skipped)
  }

  function SumScored(rows: seq<Row>, systems: seq<string>): nat {
    if systems == [] then 0
    else SumScored(rows, systems[..|systems| - 1]) + StatsOf(rows, systems[|systems| - 1]).scored
  }

  /** Over the systems of the run the scored rows add up to the rows not skipped. */
  lemma {:induction false} SystemsShareTheRows(rows: seq<Row>, systems: seq<string>)
    requires forall i, j :: 0 <= i < j < |systems| ==> systems[i] != systems[j]
    requires forall r :: r in rows && !r.skipped ==> r.system in systems
    ensures SumScored(rows, systems) == CountScored(rows)
  {
    if rows == [] {
      NoRowsNoSum(systems);
    } else {
      var init, last := rows[..|rows| - 1], rows[|rows| - 1];
      assert rows == init + [last] && last in rows;
      SystemsShareTheRows(init, systems);
      SumSnoc(init, last, systems);
    }
  }

  lemma {:induction false} NoRowsNoSum(systems: seq<string>)
    ensures SumScored([], systems) == 0
  {
    if systems != [] {
      NoRowsNoSum(systems[..|systems| - 1]);
    }
  }

  lemma {:induction false} SumSnoc(rows: seq<Row>, r: Row, systems: seq<string>)
    requires forall i, j :: 0 <= i < j < |systems| ==> systems[i] != systems[j]
    ensures SumScored(rows + [r], systems) == SumScored(rows, systems) + One(!r.skipped && r.system in systems)
  {
    if systems != [] {
      var init, last := systems[..|systems| - 1], systems[|systems| - 1];
      assert systems == init + [last] && last !in init;
      assert (rows + [r])[..|rows|] == rows;
      SumSnoc(rows, r, init);
    }
  }
}
