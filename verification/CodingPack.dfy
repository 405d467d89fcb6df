/**
 Validation and compilation of the coding-agent scenario pack
 (`validate_coding_pack`, `compile_coding_pack`): the validation accepts exactly the
 well-formed packs, and in a compiled pack every key a probe names belongs to
 exactly one memory.
 */
module CodingPack {
  import opened Wrappers
  import opened Chars
  import opened Sorting

  // ---- Scenarios ---------------------------------------------------------------------

  datatype ProbeTag =
    | Exact | Paraphrase | Hybrid | Temporal | MultiHop
    | KnowledgeUpdate | Abstain | ScopeIsolation | Uncertainty

  datatype FixtureMemory = FixtureMemory(
    key: string, scope: string, text: string, category: Option<string>,
    validFrom: Option<string>, validUntil: Option<string>, knownAt: Option<string>)

  datatype FixtureProbe = FixtureProbe(
    name: string, tag: Option<ProbeTag>, skipIfNoGraph: bool, expectAbstain: bool,
    expectKeysInTop: seq<string>, mustNotIncludeKeys: seq<string>, category: Option<string>,
    asOf: Option<string>, knownAsOf: Option<string>, sysAsOf: Option<string>)

  /** A member of a JSON object as the validation looks at it. */
  datatype Member = Absent | Str(text: string) | NotText

  datatype GoldOp = GoldOp(op: Member, priorId: Member)

  datatype CodingScenario = CodingScenario(
    id: string, pattern: string, scope: string, goldOps: seq<GoldOp>,
    goldMemories: seq<FixtureMemory>, probes: seq<FixtureProbe>, origin: Option<string>)

  datatype EvalSuite = EvalSuite(
    name: string, embeddingDim: nat, memories: seq<FixtureMemory>, probes: seq<FixtureProbe>)

  /** The pattern lists, and the parsers the validation calls. */
  datatype Rules = Rules(
    allowed: seq<string>, required: seq<string>, timestamp: string -> bool, category: string -> bool)

  const PACK_NAME := "sota_coding_v2"
  const MULTI_HOP_PATTERN := "p19_multi_hop"

  /** Both pattern lists of the source hold these twenty patterns. */
  const PATTERNS: seq<string> := [
    "p01_toolchain", "p02_supersede", "p03_arch_lock", "p04_error_lesson", "p05_module_locality",
    "p06_abi_contract", "p07_scope_isolation", "p08_valid_time", "p09_known_time", "p10_uncertainty",
    "p11_abstain", "p12_compaction", "p13_working_state", "p14_failed_approach", "p15_procedural",
    "p16_cross_session", "p17_near_dup", "p18_citation", "p19_multi_hop", "p20_identity"]

  datatype PackError =
    | UnknownPattern(id: string, pattern: string)
    | DuplicateScenario(id: string)
    | EmptyScope(id: string)
    | NoProbes(id: string)
    | EmptyMemory(id: string)
    | DuplicateKey(key: string, id: string)
    | BadTimestamp(id: string)
    | BadMemoryCategory(id: string, key: string)
    | DuplicateProbe(name: string)
    | EmptyProbeName(id: string)
    | TagMismatch(name: string)
    | BadProbeCategory(name: string)
    | PutWithPrior(id: string, i: nat)
    | PriorNotLocal(id: string, i: nat)
    | MissingOp(id: string, i: nat)
    | UnknownOp(id: string, i: nat)
    | MultiHopNotSkipped
    | MissingExemplar(pattern: string)
    | UnknownExpectKey(name: string, key: string)
    | UnknownMustNotKey(name: string, key: string)
    | AbstainExpectsKeys(name: string)

  // ---- Meaning ------------------------------------------------------------------------

  predicate Parses(raw: Option<string>, parser: string -> bool) { raw.Some? ==> parser(raw.value) }

  function Ids(ss: seq<CodingScenario>): (r: seq<string>)
    ensures |r| == |ss| && forall i :: 0 <= i < |ss| ==> r[i] == ss[i].id
  {
    seq(|ss|, i requires 0 <= i < |ss| => ss[i].id)
  }

  function Keys(ms: seq<FixtureMemory>): (r: seq<string>)
    ensures |r| == |ms| && forall i :: 0 <= i < |ms| ==> r[i] == ms[i].key
  {
    seq(|ms|, i requires 0 <= i < |ms| => ms[i].key)
  }

  function Names(ps: seq<FixtureProbe>): (r: seq<string>)
    ensures |r| == |ps| && forall i :: 0 <= i < |ps| ==> r[i] == ps[i].name
  {
    seq(|ps|, i requires 0 <= i < |ps| => ps[i].name)
  }

  /** The memories of all scenarios, in order. */
  function AllMemories(ss: seq<CodingScenario>): seq<FixtureMemory> {
    if ss == [] then [] else AllMemories(ss[..|ss| - 1]) + ss[|ss| - 1].goldMemories
  }

  /** The probes of all scenarios, in order. */
  function AllProbes(ss: seq<CodingScenario>): seq<FixtureProbe> {
    if ss == [] then [] else AllProbes(ss[..|ss| - 1]) + ss[|ss| - 1].probes
  }

  predicate MemoryOk(m: FixtureMemory, rules: Rules) {
    && !Blank(m.key) && !Blank(m.text)
    && Parses(m.validFrom, rules.timestamp) && Parses(m.validUntil, rules.timestamp)
    && Parses(m.knownAt, rules.timestamp) && Parses(m.category, rules.category)
  }

  predicate TagMismatched(p: FixtureProbe) { p.tag == Some(MultiHop) && !p.skipIfNoGraph }

  predicate ProbeOk(p: FixtureProbe, rules: Rules) {
    && !Blank(p.name) && !TagMismatched(p)
    && Parses(p.asOf, rules.timestamp) && Parses(p.knownAsOf, rules.timestamp)
    && Parses(p.sysAsOf, rules.timestamp) && Parses(p.category, rules.category)
  }

  /** A put invents no prior; a supersede replaces a memory of its own scenario. */
  predicate OpOk(op: GoldOp, keys: seq<string>) {
    && op.op.Str?
    && (|| (op.op.text == "put" && op.priorId.Absent?)
        || (op.op.text == "supersede" && op.priorId.Str? && op.priorId.text != "" && op.priorId.text in keys)
        || op.op.text == "noop" || op.op.text == "forget")
  }

  predicate SkipsGraph(p: FixtureProbe) { p.skipIfNoGraph || p.tag == Some(MultiHop) }

  predicate ScenarioOk(s: CodingScenario, rules: Rules) {
    && s.pattern in rules.allowed && !Blank(s.scope) && s.probes != []
    && (forall m :: m in s.goldMemories ==> MemoryOk(m, rules))
    && (forall p :: p in s.probes ==> ProbeOk(p, rules))
    && (forall op :: op in s.goldOps ==> OpOk(op, Keys(s.goldMemories)))
    && (s.pattern == MULTI_HOP_PATTERN ==> exists p :: p in s.probes && SkipsGraph(p))
  }

  predicate HasExemplar(ss: seq<CodingScenario>, pattern: string) {
    exists s :: s in ss && s.origin == Some("exemplar") && s.pattern == pattern
  }

  predicate KeysResolve(p: FixtureProbe, keys: seq<string>) {
    && (forall k :: k in p.expectKeysInTop ==> k in keys)
    && (forall k :: k in p.mustNotIncludeKeys ==> k in keys)
    && (p.expectAbstain ==> p.expectKeysInTop == [])
  }

  ghost predicate AllKeysResolve(ss: seq<CodingScenario>) {
    forall p :: p in AllProbes(ss) ==> KeysResolve(p, Keys(AllMemories(ss)))
  }

  /** Every scenario is in order, and ids, keys and probe names are unique across scenarios. */
  ghost predicate Clean(ss: seq<CodingScenario>, rules: Rules) {
    && Distinct(Ids(ss)) && Distinct(Keys(AllMemories(ss))) && Distinct(Names(AllProbes(ss)))
    && forall s :: s in ss ==> ScenarioOk(s, rules)
  }

  ghost predicate WellFormed(ss: seq<CodingScenario>, rules: Rules) {
    && Clean(ss, rules)
    && (forall pattern :: pattern in rules.required ==> HasExemplar(ss, pattern))
    && AllKeysResolve(ss)
  }

  /** What a well-formed pack guarantees its users, written out. */
  lemma WellFormedMeans(ss: seq<CodingScenario>, rules: Rules, i: nat, j: nat)
    requires WellFormed(ss, rules) && i < |ss| && j < |ss[i].probes|
    ensures forall k :: 0 <= k < |ss| && k != i ==> ss[k].id != ss[i].id
    ensures var p := ss[i].probes[j];
      && (p.expectAbstain ==> p.expectKeysInTop == [])
      && !Blank(p.name) && (p.tag == Some(MultiHop) ==> p.skipIfNoGraph)
      && (forall key :: key in p.expectKeysInTop || key in p.mustNotIncludeKeys ==>
            exists m :: m in AllMemories(ss) && m.key == key)
    ensures forall m :: m in ss[i].goldMemories ==>
      !Blank(m.key) && !Blank(m.text) && (m.validFrom.Some? ==> rules.timestamp(m.validFrom.value))
      && (m.category.Some? ==> rules.category(m.category.value))
    ensures ss[i].pattern in rules.allowed && !Blank(ss[i].scope)
  {
    var s, p, all := ss[i], ss[i].probes[j], AllMemories(ss);
    assert s in ss && p in s.probes && ScenarioOk(s, rules) && ProbeOk(p, rules);
    ProbeIsInPack(ss, i, p);
    assert KeysResolve(p, Keys(all));
    forall k | 0 <= k < |ss| && k != i ensures ss[k].id != s.id {
      assert Ids(ss)[if k < i then k else i] != Ids(ss)[if k < i then i else k];
    }
    forall key | key in p.expectKeysInTop || key in p.mustNotIncludeKeys
      ensures exists m :: m in all && m.key == key
    {
      var n :| 0 <= n < |all| && Keys(all)[n] == key;
      assert all[n] in all;
    }
    forall m | m in s.goldMemories ensures MemoryOk(m, rules) {
    }
  }

  // ---- Adding one scenario ---------------------------------------------------------------

  /** What the pass over one scenario checks, after the scenarios `before` it. */
  ghost predicate Fits(s: CodingScenario, before: seq<CodingScenario>, rules: Rules) {
    && ScenarioOk(s, rules) && s.id !in Ids(before)
    && Distinct(Keys(AllMemories(before)) + Keys(s.goldMemories))
    && Distinct(Names(AllProbes(before)) + Names(s.probes))
  }

  lemma Snoc(ss: seq<CodingScenario>, s: CodingScenario)
    ensures Ids(ss + [s]) == Ids(ss) + [s.id]
    ensures AllMemories(ss + [s]) == AllMemories(ss) + s.goldMemories
    ensures AllProbes(ss + [s]) == AllProbes(ss) + s.probes
    ensures Keys(AllMemories(ss + [s])) == Keys(AllMemories(ss)) + Keys(s.goldMemories)
    ensures Names(AllProbes(ss + [s])) == Names(AllProbes(ss)) + Names(s.probes)
  {
    assert (ss + [s])[..|ss|] == ss;
  }

  lemma DistinctSnoc(xs: seq<string>, x: string)
    ensures Distinct(xs + [x]) <==> Distinct(xs) && x !in xs
  {
    var ys := xs + [x];
    if Distinct(ys) {
      forall i | 0 <= i < |xs| ensures xs[i] != x {
        assert ys[i] != ys[|xs|];
      }
      forall i, j | 0 <= i < j < |xs| ensures xs[i] != xs[j] {
        assert ys[i] != ys[j];
      }
    }
  }

  lemma DistinctPrefix(xs: seq<string>, ys: seq<string>)
    requires Distinct(xs + ys)
    ensures Distinct(xs)
  {
    forall i, j | 0 <= i < j < |xs| ensures xs[i] != xs[j] {
      assert (xs + ys)[i] != (xs + ys)[j];
    }
  }

  lemma CleanSnoc(ss: seq<CodingScenario>, s: CodingScenario, rules: Rules)
    ensures Clean(ss + [s], rules) <==> Clean(ss, rules) && Fits(s, ss, rules)
  {
    Snoc(ss, s);
    DistinctSnoc(Ids(ss), s.id);
    if Clean(ss + [s], rules) {
      DistinctPrefix(Keys(AllMemories(ss)), Keys(s.goldMemories));
      DistinctPrefix(Names(AllProbes(ss)), Names(s.probes));
      assert s in ss + [s];
      forall t | t in ss ensures ScenarioOk(t, rules) {
        assert t in ss + [s];
      }
    }
  }

  lemma {:induction false} CleanPrefix(ss: seq<CodingScenario>, n: nat, rules: Rules)
    requires n <= |ss| && Clean(ss, rules)
    ensures Clean(ss[..n], rules)
    decreases |ss|
  {
    if n < |ss| {
      assert ss == ss[..|ss| - 1] + [ss[|ss| - 1]];
      CleanSnoc(ss[..|ss| - 1], ss[|ss| - 1], rules);
      CleanPrefix(ss[..|ss| - 1], n, rules);
      assert ss[..|ss| - 1][..n] == ss[..n];
    } else {
      assert ss[..n] == ss;
    }
  }

  /** A scenario that does not fit after the ones before it makes the whole ill formed. */
  lemma MisfitSpoils(ss: seq<CodingScenario>, n: nat, rules: Rules)
    requires n < |ss| && !Fits(ss[n], ss[..n], rules)
    ensures !WellFormed(ss, rules)
  {
    if Clean(ss, rules) { CleanMeansFits(ss, n, rules); }
  }

  // ---- Faults, in the order the checks are made --------------------------------------------

  function ScenarioFault(s: CodingScenario, known: bool, rules: Rules): Option<PackError> {
    if s.pattern !in rules.allowed then Some(UnknownPattern(s.id, s.pattern))
    else if known then Some(DuplicateScenario(s.id))
    else if Blank(s.scope) then Some(EmptyScope(s.id))
    else if s.probes == [] then Some(NoProbes(s.id))
    else None
  }

  function MemoryFault(id: string, m: FixtureMemory, known: bool, rules: Rules): Option<PackError> {
    if Blank(m.key) || Blank(m.text) then Some(EmptyMemory(id))
    else if known then Some(DuplicateKey(m.key, id))
    else if !Parses(m.validFrom, rules.timestamp) || !Parses(m.validUntil, rules.timestamp)
         || !Parses(m.knownAt, rules.timestamp) then Some(BadTimestamp(id))
    else if !Parses(m.category, rules.category) then Some(BadMemoryCategory(id, m.key))
    else None
  }

  function ProbeFault(id: string, p: FixtureProbe, known: bool, rules: Rules): Option<PackError> {
    if known then Some(DuplicateProbe(p.name))
    else if Blank(p.name) then Some(EmptyProbeName(id))
    else if TagMismatched(p) then Some(TagMismatch(p.name))
    else if !Parses(p.asOf, rules.timestamp) || !Parses(p.knownAsOf, rules.timestamp)
         || !Parses(p.sysAsOf, rules.timestamp) then Some(BadTimestamp(id))
    else if !Parses(p.category, rules.category) then Some(BadProbeCategory(p.name))
    else None
  }

  function OpFault(id: string, i: nat, op: GoldOp, keys: set<string>): Option<PackError> {
    var kind := if op.op.Str? then op.op.text else "";
    var prior := if op.priorId.Str? then op.priorId.text else "";
    if kind == "put" then (if !op.priorId.Absent? then Some(PutWithPrior(id, i)) else None)
    else if kind == "supersede" then (if prior == "" || prior !in keys then Some(PriorNotLocal(id, i)) else None)
    else if kind == "noop" || kind == "forget" then None
    else if kind == "" then Some(MissingOp(id, i))
    else Some(UnknownOp(id, i))
  }

  /** Which fault of a scenario is named: the first of its four checks that fails. */
  lemma ScenarioFaultNamesTheCheck(s: CodingScenario, known: bool, rules: Rules)
    ensures var f, allowed := ScenarioFault(s, known, rules), s.pattern in rules.allowed;
      && (f == Some(UnknownPattern(s.id, s.pattern)) <==> !allowed)
      && (f == Some(DuplicateScenario(s.id)) <==> allowed && known)
      && (f == Some(EmptyScope(s.id)) <==> allowed && !known && Blank(s.scope))
      && (f == Some(NoProbes(s.id)) <==> allowed && !known && !Blank(s.scope) && s.probes == [])
      && (f.None? <==> allowed && !known && !Blank(s.scope) && s.probes != [])
  {
  }

  predicate TimesParse(a: Option<string>, b: Option<string>, c: Option<string>, rules: Rules) {
    Parses(a, rules.timestamp) && Parses(b, rules.timestamp) && Parses(c, rules.timestamp)
  }

  lemma MemoryFaultNamesTheCheck(id: string, m: FixtureMemory, known: bool, rules: Rules)
    ensures var f := MemoryFault(id, m, known, rules);
      var filled, timed := !Blank(m.key) && !Blank(m.text), TimesParse(m.validFrom, m.validUntil, m.knownAt, rules);
      && (f == Some(EmptyMemory(id)) <==> !filled)
      && (f == Some(DuplicateKey(m.key, id)) <==> filled && known)
      && (f == Some(BadTimestamp(id)) <==> filled && !known && !timed)
      && (f == Some(BadMemoryCategory(id, m.key)) <==>
            filled && !known && timed && !Parses(m.category, rules.category))
      && (f.None? <==> !known && MemoryOk(m, rules))
  {
  }

  lemma ProbeFaultNamesTheCheck(id: string, p: FixtureProbe, known: bool, rules: Rules)
    ensures var f := ProbeFault(id, p, known, rules);
      var open, timed := !known && !Blank(p.name), TimesParse(p.asOf, p.knownAsOf, p.sysAsOf, rules);
      && (f == Some(DuplicateProbe(p.name)) <==> known)
      && (f == Some(EmptyProbeName(id)) <==> !known && Blank(p.name))
      && (f == Some(TagMismatch(p.name)) <==> open && TagMismatched(p))
      && (f == Some(BadTimestamp(id)) <==> open && !TagMismatched(p) && !timed)
      && (f == Some(BadProbeCategory(p.name)) <==>
            open && !TagMismatched(p) && timed && !Parses(p.category, rules.category))
      && (f.None? <==> !known && ProbeOk(p, rules))
  {
  }

  lemma OpFaultNamesTheCheck(id: string, i: nat, op: GoldOp, keys: set<string>)
    ensures var f, local := OpFault(id, i, op, keys), op.priorId.Str? && op.priorId.text in keys;
      && (f == Some(PutWithPrior(id, i)) <==> op.op == Str("put") && !op.priorId.Absent?)
      && (f == Some(PriorNotLocal(id, i)) <==> op.op == Str("supersede") && !(local && op.priorId.text != ""))
      && (f == Some(MissingOp(id, i)) <==> !op.op.Str? || op.op.text == "")
      && (f == Some(UnknownOp(id, i)) <==>
            op.op.Str? && op.op.text !in ["", "put", "supersede", "noop", "forget"])
  {
  }

  // ---- The error that is reported ------------------------------------------------------------

  ghost predicate MemoriesFit(s: CodingScenario, seen: seq<string>, rules: Rules) {
    (forall m :: m in s.goldMemories ==> MemoryOk(m, rules)) && Distinct(seen + Keys(s.goldMemories))
  }

  ghost predicate ProbesFit(s: CodingScenario, seen: seq<string>, rules: Rules) {
    (forall p :: p in s.probes ==> ProbeOk(p, rules)) && Distinct(seen + Names(s.probes))
  }

  ghost predicate OpsFit(s: CodingScenario) {
    forall op :: op in s.goldOps ==> OpOk(op, Keys(s.goldMemories))
  }

  /** `e` is the fault of memory `i`, and the memories before it are in order. */
  ghost predicate MemoryFaultAt(s: CodingScenario, seen: seq<string>, rules: Rules, i: nat, e: PackError) {
    && i < |s.goldMemories|
    && (forall j :: 0 <= j < i ==> MemoryOk(s.goldMemories[j], rules)) && Distinct(seen + Keys(s.goldMemories[..i]))
    && MemoryFault(s.id, s.goldMemories[i], s.goldMemories[i].key in seen + Keys(s.goldMemories[..i]), rules) == Some(e)
  }

  ghost predicate ProbeFaultAt(s: CodingScenario, seen: seq<string>, rules: Rules, i: nat, e: PackError) {
    && i < |s.probes|
    && (forall j :: 0 <= j < i ==> ProbeOk(s.probes[j], rules)) && Distinct(seen + Names(s.probes[..i]))
    && ProbeFault(s.id, s.probes[i], s.probes[i].name in seen + Names(s.probes[..i]), rules) == Some(e)
  }

  ghost predicate OpFaultAt(s: CodingScenario, i: nat, e: PackError) {
    && i < |s.goldOps|
    && (forall j :: 0 <= j < i ==> OpOk(s.goldOps[j], Keys(s.goldMemories)))
    && OpFault(s.id, i, s.goldOps[i], set k | k in Keys(s.goldMemories)) == Some(e)
  }

  ghost predicate MemoriesFault(s: CodingScenario, seen: seq<string>, rules: Rules, e: PackError) {
    exists i: nat :: MemoryFaultAt(s, seen, rules, i, e)
  }

  ghost predicate ProbesFault(s: CodingScenario, seen: seq<string>, rules: Rules, e: PackError) {
    exists i: nat :: ProbeFaultAt(s, seen, rules, i, e)
  }

  ghost predicate OpsFault(s: CodingScenario, e: PackError) { exists i: nat :: OpFaultAt(s, i, e) }

  ghost predicate SkipFault(s: CodingScenario, e: PackError) {
    e.MultiHopNotSkipped? && s.pattern == MULTI_HOP_PATTERN && forall p :: p in s.probes ==> !SkipsGraph(p)
  }

  /**
   `e` is the first fault of `s`: of the scenario itself, else of its first bad memory,
   else of its first bad probe, else of its first bad operation, else the missing skip.
   */
  ghost predicate FirstFault(s: CodingScenario, before: seq<CodingScenario>, rules: Rules, e: PackError) {
    var self := ScenarioFault(s, s.id in Ids(before), rules);
    var keys, names := Keys(AllMemories(before)), Names(AllProbes(before));
    || self == Some(e)
    || (self.None? && MemoriesFault(s, keys, rules, e))
    || (self.None? && MemoriesFit(s, keys, rules) && ProbesFault(s, names, rules, e))
    || (self.None? && MemoriesFit(s, keys, rules) && ProbesFit(s, names, rules) && OpsFault(s, e))
    || (self.None? && MemoriesFit(s, keys, rules) && ProbesFit(s, names, rules) && OpsFit(s) && SkipFault(s, e))
  }

  /** `e` is the first fault of scenario `n`, and the scenarios before it are clean. */
  ghost predicate FirstMisfit(ss: seq<CodingScenario>, n: nat, rules: Rules, e: PackError) {
    n < |ss| && Clean(ss[..n], rules) && !Fits(ss[n], ss[..n], rules) && FirstFault(ss[n], ss[..n], rules, e)
  }

  ghost predicate MissingAt(ss: seq<CodingScenario>, rules: Rules, i: nat, e: PackError) {
    && i < |rules.required| && e == MissingExemplar(rules.required[i]) && !HasExemplar(ss, rules.required[i])
    && forall j :: 0 <= j < i ==> HasExemplar(ss, rules.required[j])
  }

  /** `e` is the first thing wrong with the keys of a probe. */
  ghost predicate KeyFault(p: FixtureProbe, keys: seq<string>, e: PackError) {
    || (exists i: nat :: UnknownAt(p.expectKeysInTop, keys, i) && e == UnknownExpectKey(p.name, p.expectKeysInTop[i]))
    || (AllKnown(p.expectKeysInTop, keys)
        && var banned := p.mustNotIncludeKeys;
           exists i: nat :: UnknownAt(banned, keys, i) && e == UnknownMustNotKey(p.name, banned[i]))
    || (AllKnown(p.expectKeysInTop, keys) && AllKnown(p.mustNotIncludeKeys, keys) && p.expectAbstain
        && p.expectKeysInTop != [] && e == AbstainExpectsKeys(p.name))
  }

  predicate AllKnown(wanted: seq<string>, keys: seq<string>) { forall k :: k in wanted ==> k in keys }

  predicate UnknownAt(wanted: seq<string>, keys: seq<string>, i: nat) {
    i < |wanted| && wanted[i] !in keys && forall j :: 0 <= j < i ==> wanted[j] in keys
  }

  /** Probe `i` of scenario `n` is the first whose keys are at fault. */
  ghost predicate KeyFaultAt(ss: seq<CodingScenario>, n: nat, i: nat, e: PackError) {
    var keys := Keys(AllMemories(ss));
    && n < |ss| && i < |ss[n].probes| && KeyFault(ss[n].probes[i], keys, e)
    && (forall p :: p in AllProbes(ss[..n]) ==> KeysResolve(p, keys))
    && (forall j :: 0 <= j < i ==> KeysResolve(ss[n].probes[j], keys))
  }

  /**
   The error reported: the first fault of the first scenario that does not fit, else
   the first required pattern without an exemplar, else the first probe key at fault.
   */
  ghost predicate Justified(ss: seq<CodingScenario>, rules: Rules, e: PackError) {
    || (exists n: nat :: FirstMisfit(ss, n, rules, e))
    || (Clean(ss, rules) && exists i: nat :: MissingAt(ss, rules, i, e))
    || (Clean(ss, rules) && (forall pattern :: pattern in rules.required ==> HasExemplar(ss, pattern))
        && exists n: nat, i: nat :: KeyFaultAt(ss, n, i, e))
  }

  /** The set holds exactly the listed texts. */
  ghost predicate Lists(xs: seq<string>, s: set<string>) { forall x :: x in s <==> x in xs }

  lemma ListsSnoc(xs: seq<string>, s: set<string>, x: string)
    requires Lists(xs, s)
    ensures Lists(xs + [x], s + {x})
  {
  }

  // ---- The validation -----------------------------------------------------------------------

  method CheckMemories(s: CodingScenario, seen: map<string, string>, ghost before: seq<string>, rules: Rules)
    returns (fault: Option<PackError>, keys: map<string, string>, local: set<string>)
    requires Distinct(before) && Lists(before, seen.Keys)
    ensures fault.None? <==> MemoriesFit(s, before, rules)
    ensures fault.Some? ==> MemoriesFault(s, before, rules, fault.value)
    ensures fault.None? ==> Lists(before + Keys(s.goldMemories), keys.Keys) && Lists(Keys(s.goldMemories), local)
  {
    keys, local := seen, {};
    for i := 0 to |s.goldMemories|
      invariant MemoriesPassed(s.goldMemories, i, before, keys.Keys, local, rules)
    {
      var m := s.goldMemories[i];
      fault := MemoryFault(s.id, m, m.key in keys, rules);
      MemoryStep(s.goldMemories, i, before);
      if fault.Some? {
        assert m in s.goldMemories && MemoryFaultAt(s, before, rules, i, fault.value);
        return;
      }
      MemoryPasses(s.goldMemories, i, before, keys.Keys, local, rules);
      keys, local := keys[m.key := s.id], local + {m.key};
    }
    assert s.goldMemories[..|s.goldMemories|] == s.goldMemories;
    fault := None;
  }

  /** What the pass over the memories keeps. */
  ghost predicate MemoriesPassed(ms: seq<FixtureMemory>, i: nat, before: seq<string>, keys: set<string>,
                                 local: set<string>, rules: Rules) {
    && i <= |ms|
    && (forall k :: 0 <= k < i ==> MemoryOk(ms[k], rules))
    && Distinct(before + Keys(ms[..i]))
    && Lists(before + Keys(ms[..i]), keys) && Lists(Keys(ms[..i]), local)
  }

  lemma MemoryPasses(ms: seq<FixtureMemory>, i: nat, before: seq<string>, keys: set<string>,
                     local: set<string>, rules: Rules)
    requires MemoriesPassed(ms, i, before, keys, local, rules) && i < |ms|
    requires MemoryOk(ms[i], rules) && ms[i].key !in keys
    ensures MemoriesPassed(ms, i + 1, before, keys + {ms[i].key}, local + {ms[i].key}, rules)
  {
    MemoryStep(ms, i, before);
    ListsSnoc(before + Keys(ms[..i]), keys, ms[i].key);
    ListsSnoc(Keys(ms[..i]), local, ms[i].key);
  }

  lemma MemoryStep(ms: seq<FixtureMemory>, i: nat, before: seq<string>)
    requires i < |ms|
    ensures Keys(ms[..i + 1]) == Keys(ms[..i]) + [ms[i].key]
    ensures before + Keys(ms[..i + 1]) == before + Keys(ms[..i]) + [ms[i].key]
    ensures Distinct(before + Keys(ms[..i + 1])) <==>
      Distinct(before + Keys(ms[..i])) && ms[i].key !in before + Keys(ms[..i])
    ensures Distinct(before + Keys(ms)) ==> Distinct(before + Keys(ms[..i + 1]))
  {
    assert before + Keys(ms[..i + 1]) == before + Keys(ms[..i]) + [ms[i].key];
    DistinctSnoc(before + Keys(ms[..i]), ms[i].key);
    assert before + Keys(ms) == before + Keys(ms[..i + 1]) + Keys(ms[i + 1..]);
    if Distinct(before + Keys(ms)) {
      DistinctPrefix(before + Keys(ms[..i + 1]), Keys(ms[i + 1..]));
    }
  }

  method CheckProbes(s: CodingScenario, seen: set<string>, ghost before: seq<string>, rules: Rules)
    returns (fault: Option<PackError>, names: set<string>)
    requires Distinct(before) && Lists(before, seen)
    ensures fault.None? <==> ProbesFit(s, before, rules)
    ensures fault.Some? ==> ProbesFault(s, before, rules, fault.value)
    ensures fault.None? ==> Lists(before + Names(s.probes), names)
  {
    names := seen;
    for i := 0 to |s.probes|
      invariant ProbesPassed(s.probes, i, before, names, rules)
    {
      var p := s.probes[i];
      fault := ProbeFault(s.id, p, p.name in names, rules);
      ProbeStep(s.probes, i, before);
      if fault.Some? {
        assert p in s.probes && ProbeFaultAt(s, before, rules, i, fault.value);
        return;
      }
      ProbePasses(s.probes, i, before, names, rules);
      names := names + {p.name};
    }
    assert s.probes[..|s.probes|] == s.probes;
    fault := None;
  }

  /** What the pass over the probes keeps. */
  ghost predicate ProbesPassed(ps: seq<FixtureProbe>, i: nat, before: seq<string>, names: set<string>, rules: Rules) {
    && i <= |ps|
    && (forall k :: 0 <= k < i ==> ProbeOk(ps[k], rules))
    && Distinct(before + Names(ps[..i])) && Lists(before + Names(ps[..i]), names)
  }

  lemma ProbePasses(ps: seq<FixtureProbe>, i: nat, before: seq<string>, names: set<string>, rules: Rules)
    requires ProbesPassed(ps, i, before, names, rules) && i < |ps|
    requires ProbeOk(ps[i], rules) && ps[i].name !in names
    ensures ProbesPassed(ps, i + 1, before, names + {ps[i].name}, rules)
  {
    ProbeStep(ps, i, before);
    ListsSnoc(before + Names(ps[..i]), names, ps[i].name);
  }

  lemma ProbeStep(ps: seq<FixtureProbe>, i: nat, before: seq<string>)
    requires i < |ps|
    ensures before + Names(ps[..i + 1]) == before + Names(ps[..i]) + [ps[i].name]
    ensures Distinct(before + Names(ps[..i + 1])) <==>
      Distinct(before + Names(ps[..i])) && ps[i].name !in before + Names(ps[..i])
    ensures Distinct(before + Names(ps)) ==> Distinct(before + Names(ps[..i + 1]))
  {
    assert before + Names(ps[..i + 1]) == before + Names(ps[..i]) + [ps[i].name];
    DistinctSnoc(before + Names(ps[..i]), ps[i].name);
    assert before + Names(ps) == before + Names(ps[..i + 1]) + Names(ps[i + 1..]);
    if Distinct(before + Names(ps)) {
      DistinctPrefix(before + Names(ps[..i + 1]), Names(ps[i + 1..]));
    }
  }

  method ValidateGoldOps(s: CodingScenario, local: set<string>) returns (fault: Option<PackError>)
    requires Lists(Keys(s.goldMemories), local)
    ensures fault.None? <==> OpsFit(s)
    ensures fault.Some? ==> OpsFault(s, fault.value)
  {
    assert local == set k | k in Keys(s.goldMemories);
    for i := 0 to |s.goldOps|
      invariant forall k :: 0 <= k < i ==> OpOk(s.goldOps[k], Keys(s.goldMemories))
    {
      fault := OpFault(s.id, i, s.goldOps[i], local);
      assert fault.None? <==> OpOk(s.goldOps[i], Keys(s.goldMemories));
      if fault.Some? {
        assert OpFaultAt(s, i, fault.value);
        return;
      }
    }
    fault := None;
  }

  method CheckProbeKeys(p: FixtureProbe, known: map<string, string>, ghost keys: seq<string>)
    returns (fault: Option<PackError>)
    requires Lists(keys, known.Keys)
    ensures fault.None? <==> KeysResolve(p, keys)
    ensures fault.Some? ==> KeyFault(p, keys, fault.value)
  {
    for i := 0 to |p.expectKeysInTop|
      invariant forall k :: 0 <= k < i ==> p.expectKeysInTop[k] in keys
    {
      if p.expectKeysInTop[i] !in known {
        assert UnknownAt(p.expectKeysInTop, keys, i);
        return Some(UnknownExpectKey(p.name, p.expectKeysInTop[i]));
      }
    }
    for i := 0 to |p.mustNotIncludeKeys|
      invariant forall k :: 0 <= k < i ==> p.mustNotIncludeKeys[k] in keys
    {
      if p.mustNotIncludeKeys[i] !in known {
        assert AllKnown(p.expectKeysInTop, keys) && UnknownAt(p.mustNotIncludeKeys, keys, i);
        return Some(UnknownMustNotKey(p.name, p.mustNotIncludeKeys[i]));
      }
    }
    if p.expectAbstain && p.expectKeysInTop != [] {
      return Some(AbstainExpectsKeys(p.name));
    }
    return None;
  }

  /** The sets and maps of the pass, against the scenarios already passed. */
  ghost predicate Tracks(before: seq<CodingScenario>, ids: set<string>, keys: map<string, string>,
                         names: set<string>, exemplars: set<string>) {
    && Lists(Ids(before), ids)
    && Lists(Keys(AllMemories(before)), keys.Keys)
    && Lists(Names(AllProbes(before)), names)
    && forall x :: x in exemplars <==> HasExemplar(before, x)
  }

  lemma TracksSnoc(before: seq<CodingScenario>, s: CodingScenario, ids: set<string>, keys: map<string, string>,
                   names: set<string>, exemplars: set<string>, keys': map<string, string>, names': set<string>)
    requires Tracks(before, ids, keys, names, exemplars)
    requires Lists(Keys(AllMemories(before)) + Keys(s.goldMemories), keys'.Keys)
    requires Lists(Names(AllProbes(before)) + Names(s.probes), names')
    ensures Tracks(before + [s], ids + {s.id}, keys', names',
                   if s.origin == Some("exemplar") then exemplars + {s.pattern} else exemplars)
  {
    Snoc(before, s);
    ListsSnoc(Ids(before), ids, s.id);
    forall x ensures HasExemplar(before + [s], x) <==>
      HasExemplar(before, x) || (s.origin == Some("exemplar") && s.pattern == x)
    {
      ExemplarSnoc(before, s, x);
    }
  }

  lemma ExemplarSnoc(before: seq<CodingScenario>, s: CodingScenario, x: string)
    ensures HasExemplar(before + [s], x) <==> HasExemplar(before, x) || (s.origin == Some("exemplar") && s.pattern == x)
  {
    if HasExemplar(before, x) {
      var t :| t in before && t.origin == Some("exemplar") && t.pattern == x;
      assert t in before + [s];
    }
    if s.origin == Some("exemplar") && s.pattern == x {
      assert s in before + [s];
    }
  }

  /** The checks of one scenario, in order, against what the earlier scenarios left. */
  method CheckScenario(s: CodingScenario, ghost before: seq<CodingScenario>, ids: set<string>,
                       keys: map<string, string>, names: set<string>, ghost exemplars: set<string>, rules: Rules)
    returns (fault: Option<PackError>, keys': map<string, string>, names': set<string>)
    requires Clean(before, rules) && Tracks(before, ids, keys, names, exemplars)
    ensures fault.None? <==> Fits(s, before, rules)
    ensures fault.Some? ==> FirstFault(s, before, rules, fault.value)
    ensures fault.None? ==> Lists(Keys(AllMemories(before)) + Keys(s.goldMemories), keys'.Keys)
    ensures fault.None? ==> Lists(Names(AllProbes(before)) + Names(s.probes), names')
  {
    keys', names' := keys, names;
    fault := ScenarioFault(s, s.id in ids, rules);
    if fault.Some? {
      return;
    }
    var local;
    fault, keys', local := CheckMemories(s, keys, Keys(AllMemories(before)), rules);
    if fault.Some? {
      return;
    }
    fault, names' := CheckProbes(s, names, Names(AllProbes(before)), rules);
    if fault.Some? {
      return;
    }
    fault := ValidateGoldOps(s, local);
    if fault.Some? {
      return;
    }
    if s.pattern == MULTI_HOP_PATTERN && !exists p :: p in s.probes && SkipsGraph(p) {
      fault := Some(MultiHopNotSkipped);
    }
  }

  /** Accepts exactly the well-formed packs, and only reports what is really wrong. */
  method ValidateCodingPack(ss: seq<CodingScenario>, rules: Rules) returns (r: Result<(), PackError>)
    ensures r.Ok? <==> WellFormed(ss, rules)
    ensures r.Err? ==> Justified(ss, rules, r.error)
  {
    var ids: set<string>, names: set<string>, exemplars: set<string> := {}, {}, {};
    var keys: map<string, string> := map[];
    for n := 0 to |ss|
      invariant Clean(ss[..n], rules) && Tracks(ss[..n], ids, keys, names, exemplars)
    {
      var s := ss[n];
      var fault, keys', names' := CheckScenario(s, ss[..n], ids, keys, names, exemplars, rules);
      if fault.Some? {
        MisfitSpoils(ss, n, rules);
        assert FirstMisfit(ss, n, rules, fault.value);
        return Err(fault.value);
      }
      assert ss[..n + 1] == ss[..n] + [s];
      CleanSnoc(ss[..n], s, rules);
      TracksSnoc(ss[..n], s, ids, keys, names, exemplars, keys', names');
      ids, keys, names := ids + {s.id}, keys', names';
      if s.origin == Some("exemplar") {
        exemplars := exemplars + {s.pattern};
      }
    }
    assert ss[..|ss|] == ss;
    assert Clean(ss, rules);
    for i := 0 to |rules.required|
      invariant forall k :: 0 <= k < i ==> HasExemplar(ss, rules.required[k])
    {
      if rules.required[i] !in exemplars {
        assert rules.required[i] in rules.required && MissingAt(ss, rules, i, MissingExemplar(rules.required[i]));
        return Err(MissingExemplar(rules.required[i]));
      }
    }
    r := CheckAllKeys(ss, keys);
  }

  method CheckScenarioKeys(ss: seq<CodingScenario>, n: nat, known: map<string, string>)
    returns (fault: Option<PackError>)
    requires n < |ss| && Lists(Keys(AllMemories(ss)), known.Keys)
    requires forall p :: p in AllProbes(ss[..n]) ==> KeysResolve(p, Keys(AllMemories(ss)))
    ensures fault.None? ==> forall p :: p in ss[n].probes ==> KeysResolve(p, Keys(AllMemories(ss)))
    ensures fault.Some? ==> exists i :: KeyFaultAt(ss, n, i, fault.value)
    ensures fault.Some? ==> exists p :: p in ss[n].probes && !KeysResolve(p, Keys(AllMemories(ss)))
  {
    var s := ss[n];
    for i := 0 to |s.probes|
      invariant forall k :: 0 <= k < i ==> KeysResolve(s.probes[k], Keys(AllMemories(ss)))
    {
      fault := CheckProbeKeys(s.probes[i], known, Keys(AllMemories(ss)));
      if fault.Some? {
        assert KeyFaultAt(ss, n, i, fault.value) && s.probes[i] in s.probes;
        return;
      }
    }
    fault := None;
  }

  /** The last pass: every key a probe names is a gold key. */
  method CheckAllKeys(ss: seq<CodingScenario>, keys: map<string, string>) returns (r: Result<(), PackError>)
    requires Lists(Keys(AllMemories(ss)), keys.Keys)
    ensures r.Ok? <==> AllKeysResolve(ss)
    ensures r.Err? ==> exists n, i :: KeyFaultAt(ss, n, i, r.error)
  {
    for n := 0 to |ss|
      invariant forall p :: p in AllProbes(ss[..n]) ==> KeysResolve(p, Keys(AllMemories(ss)))
    {
      assert ss[..n + 1] == ss[..n] + [ss[n]];
      Snoc(ss[..n], ss[n]);
      var fault := CheckScenarioKeys(ss, n, keys);
      if fault.Some? {
        ghost var p :| p in ss[n].probes && !KeysResolve(p, Keys(AllMemories(ss)));
        ProbeIsInPack(ss, n, p);
        return Err(fault.value);
      }
    }
    assert ss[..|ss|] == ss;
    return Ok(());
  }

  lemma {:induction false} ProbeIsInPack(ss: seq<CodingScenario>, n: nat, p: FixtureProbe)
    requires n < |ss| && p in ss[n].probes
    ensures p in AllProbes(ss)
  {
    if n < |ss| - 1 {
      ProbeIsInPack(ss[..|ss| - 1], n, p);
    }
  }

  // ---- One error is reported --------------------------------------------------------------------

  lemma EarlierMemoryPasses(s: CodingScenario, seen: seq<string>, rules: Rules, i: nat, j: nat, e: PackError)
    requires i < j && MemoryFaultAt(s, seen, rules, j, e)
    ensures MemoryOk(s.goldMemories[i], rules) && s.goldMemories[i].key !in seen + Keys(s.goldMemories[..i])
  {
    var ms := s.goldMemories[..j];
    MemoryStep(ms, i, seen);
    assert ms[..i + 1] == s.goldMemories[..i + 1] && ms[..i] == s.goldMemories[..i];
  }

  lemma EarlierProbePasses(s: CodingScenario, seen: seq<string>, rules: Rules, i: nat, j: nat, e: PackError)
    requires i < j && ProbeFaultAt(s, seen, rules, j, e)
    ensures ProbeOk(s.probes[i], rules) && s.probes[i].name !in seen + Names(s.probes[..i])
  {
    var ps := s.probes[..j];
    ProbeStep(ps, i, seen);
    assert ps[..i + 1] == s.probes[..i + 1] && ps[..i] == s.probes[..i];
  }

  lemma MemoryFaultSpoils(s: CodingScenario, seen: seq<string>, rules: Rules, i: nat, e: PackError)
    requires MemoryFaultAt(s, seen, rules, i, e)
    ensures !MemoriesFit(s, seen, rules)
    ensures forall j: nat, f :: MemoryFaultAt(s, seen, rules, j, f) ==> j <= i
  {
    MemoryStep(s.goldMemories, i, seen);
    assert s.goldMemories[i] in s.goldMemories;
    forall j: nat, f | MemoryFaultAt(s, seen, rules, j, f) ensures j <= i {
      if i < j { EarlierMemoryPasses(s, seen, rules, i, j, f); }
    }
  }

  lemma ProbeFaultSpoils(s: CodingScenario, seen: seq<string>, rules: Rules, i: nat, e: PackError)
    requires ProbeFaultAt(s, seen, rules, i, e)
    ensures !ProbesFit(s, seen, rules)
    ensures forall j: nat, f :: ProbeFaultAt(s, seen, rules, j, f) ==> j <= i
  {
    ProbeStep(s.probes, i, seen);
    assert s.probes[i] in s.probes;
    forall j: nat, f | ProbeFaultAt(s, seen, rules, j, f) ensures j <= i {
      if i < j { EarlierProbePasses(s, seen, rules, i, j, f); }
    }
  }

  lemma OpFaultSpoils(s: CodingScenario, i: nat, e: PackError)
    requires OpFaultAt(s, i, e)
    ensures !OpsFit(s)
    ensures forall j: nat, f :: OpFaultAt(s, j, f) ==> j <= i
  {
    assert s.goldOps[i] in s.goldOps && !OpOk(s.goldOps[i], Keys(s.goldMemories));
  }

  /** A scenario has one first fault. */
  lemma FirstFaultIsUnique(s: CodingScenario, before: seq<CodingScenario>, rules: Rules, e: PackError, f: PackError)
    requires FirstFault(s, before, rules, e) && FirstFault(s, before, rules, f)
    ensures e == f
  {
    var keys, names := Keys(AllMemories(before)), Names(AllProbes(before));
    if ScenarioFault(s, s.id in Ids(before), rules).None? {
      forall i: nat, d | MemoryFaultAt(s, keys, rules, i, d) { MemoryFaultSpoils(s, keys, rules, i, d); }
      forall i: nat, d | ProbeFaultAt(s, names, rules, i, d) { ProbeFaultSpoils(s, names, rules, i, d); }
      forall i: nat, d | OpFaultAt(s, i, d) { OpFaultSpoils(s, i, d); }
    }
  }

  lemma FirstMisfitIsUnique(ss: seq<CodingScenario>, n: nat, m: nat, rules: Rules, e: PackError, f: PackError)
    requires FirstMisfit(ss, n, rules, e) && FirstMisfit(ss, m, rules, f)
    ensures n >= m
  {
    if n < m {
      EarlierFits(ss, n, m, rules);
    }
  }

  lemma CleanMeansFits(ss: seq<CodingScenario>, n: nat, rules: Rules)
    requires n < |ss| && Clean(ss, rules)
    ensures Fits(ss[n], ss[..n], rules)
  {
    CleanPrefix(ss, n + 1, rules);
    assert ss[..n + 1] == ss[..n] + [ss[n]];
    CleanSnoc(ss[..n], ss[n], rules);
  }

  lemma EarlierFits(ss: seq<CodingScenario>, n: nat, m: nat, rules: Rules)
    requires n < m <= |ss| && Clean(ss[..m], rules)
    ensures Fits(ss[n], ss[..n], rules)
  {
    CleanMeansFits(ss[..m], n, rules);
    assert ss[..m][..n] == ss[..n] && ss[..m][n] == ss[n];
  }

  lemma MisfitIsNotClean(ss: seq<CodingScenario>, n: nat, rules: Rules, e: PackError)
    requires FirstMisfit(ss, n, rules, e)
    ensures !Clean(ss, rules)
  {
    if Clean(ss, rules) { CleanMeansFits(ss, n, rules); }
  }

  lemma KeyFaultIsUnique(p: FixtureProbe, keys: seq<string>, e: PackError, f: PackError)
    requires KeyFault(p, keys, e) && KeyFault(p, keys, f)
    ensures e == f && !KeysResolve(p, keys)
  {
    forall wanted: seq<string>, i: nat | UnknownAt(wanted, keys, i) ensures !AllKnown(wanted, keys) {
      assert wanted[i] in wanted;
    }
  }

  lemma KeyFaultIsFirst(ss: seq<CodingScenario>, n: nat, i: nat, m: nat, j: nat, e: PackError, f: PackError)
    requires KeyFaultAt(ss, n, i, e) && KeyFaultAt(ss, m, j, f)
    ensures n >= m && (n == m ==> i >= j)
  {
    KeyFaultIsUnique(ss[n].probes[i], Keys(AllMemories(ss)), e, e);
    if n < m {
      ProbeIsInPack(ss[..m], n, ss[n].probes[i]);
    }
  }

  lemma MisfitErrorIsUnique(ss: seq<CodingScenario>, n: nat, m: nat, rules: Rules, e: PackError, f: PackError)
    requires FirstMisfit(ss, n, rules, e) && FirstMisfit(ss, m, rules, f)
    ensures e == f
  {
    FirstMisfitIsUnique(ss, n, m, rules, e, f);
    FirstMisfitIsUnique(ss, m, n, rules, f, e);
    FirstFaultIsUnique(ss[n], ss[..n], rules, e, f);
  }

  lemma MissingIsUnique(ss: seq<CodingScenario>, rules: Rules, i: nat, j: nat, e: PackError, f: PackError)
    requires MissingAt(ss, rules, i, e) && MissingAt(ss, rules, j, f)
    ensures e == f
  {
  }

  lemma KeyErrorIsUnique(ss: seq<CodingScenario>, n: nat, i: nat, m: nat, j: nat, e: PackError, f: PackError)
    requires KeyFaultAt(ss, n, i, e) && KeyFaultAt(ss, m, j, f)
    ensures e == f
  {
    KeyFaultIsFirst(ss, n, i, m, j, e, f);
    KeyFaultIsFirst(ss, m, j, n, i, f, e);
    KeyFaultIsUnique(ss[n].probes[i], Keys(AllMemories(ss)), e, f);
  }

  /** The description of the error leaves no choice: it fixes which of many faults is reported. */
  lemma ErrorIsDetermined(ss: seq<CodingScenario>, rules: Rules, e: PackError, f: PackError)
    ensures Justified(ss, rules, e) && Justified(ss, rules, f) ==> e == f
  {
    forall n: nat, d | FirstMisfit(ss, n, rules, d) {
      MisfitIsNotClean(ss, n, rules, d);
    }
    forall i: nat, d | MissingAt(ss, rules, i, d) ensures exists x :: x in rules.required && !HasExemplar(ss, x) {
      assert rules.required[i] in rules.required;
    }
    forall n: nat, m: nat | FirstMisfit(ss, n, rules, e) && FirstMisfit(ss, m, rules, f) {
      MisfitErrorIsUnique(ss, n, m, rules, e, f);
    }
    forall i: nat, j: nat | MissingAt(ss, rules, i, e) && MissingAt(ss, rules, j, f) {
      MissingIsUnique(ss, rules, i, j, e, f);
    }
    forall n: nat, i: nat, m: nat, j: nat | KeyFaultAt(ss, n, i, e) && KeyFaultAt(ss, m, j, f) {
      KeyErrorIsUnique(ss, n, i, m, j, e, f);
    }
  }

  // ---- Compilation ------------------------------------------------------------------------

  /** The memories and probes of all scenarios, in order. */
  method CompileCodingPack(ss: seq<CodingScenario>) returns (suite: EvalSuite)
    ensures suite == EvalSuite(PACK_NAME, 32, AllMemories(ss), AllProbes(ss))
  {
    var memories: seq<FixtureMemory>, probes: seq<FixtureProbe> := [], [];
    for n := 0 to |ss|
      invariant memories == AllMemories(ss[..n]) && probes == AllProbes(ss[..n])
    {
      assert ss[..n + 1] == ss[..n] + [ss[n]];
      Snoc(ss[..n], ss[n]);
      memories := memories + ss[n].goldMemories;
      probes := probes + ss[n].probes;
    }
    assert ss[..|ss|] == ss;
    return EvalSuite(PACK_NAME, 32, memories, probes);
  }

  predicate NamesOne(k: string, ms: seq<FixtureMemory>) {
    exists i :: 0 <= i < |ms| && ms[i].key == k && forall j :: 0 <= j < |ms| && ms[j].key == k ==> j == i
  }

  lemma KeyNamesOne(ms: seq<FixtureMemory>, k: string)
    requires Distinct(Keys(ms)) && k in Keys(ms)
    ensures NamesOne(k, ms)
  {
    var i :| 0 <= i < |ms| && Keys(ms)[i] == k;
    forall j | 0 <= j < |ms| && ms[j].key == k ensures j == i {
      assert Keys(ms)[j] == Keys(ms)[i];
    }
  }

  /** What the scoring of a compiled pack relies on. */
  lemma CompiledKeysNameOneMemory(ss: seq<CodingScenario>, rules: Rules, p: FixtureProbe, k: string)
    requires WellFormed(ss, rules) && p in AllProbes(ss)
    requires k in p.expectKeysInTop || k in p.mustNotIncludeKeys
    ensures NamesOne(k, AllMemories(ss))
    ensures p.expectAbstain ==> k in p.mustNotIncludeKeys
  {
    KeyNamesOne(AllMemories(ss), k);
  }

  lemma {:induction false} MemoryIsInPack(ss: seq<CodingScenario>, n: nat, m: FixtureMemory)
    requires n < |ss| && m in ss[n].goldMemories
    ensures m in AllMemories(ss)
  {
    if n < |ss| - 1 {
      MemoryIsInPack(ss[..|ss| - 1], n, m);
    }
  }

  /** The one memory of all scenarios that a supersede names is a memory of its own scenario. */
  lemma SupersedeStaysInScenario(ss: seq<CodingScenario>, rules: Rules, n: nat, op: GoldOp)
    requires WellFormed(ss, rules) && n < |ss| && op in ss[n].goldOps
    requires op.op == Str("supersede")
    ensures op.priorId.Str? && NamesOne(op.priorId.text, AllMemories(ss))
    ensures forall m :: m in AllMemories(ss) && m.key == op.priorId.text ==> m in ss[n].goldMemories
  {
    var i := PriorAt(ss[n], rules, op);
    MemoryIsInPack(ss, n, ss[n].goldMemories[i]);
    KeyIsOwn(AllMemories(ss), ss[n].goldMemories[i]);
  }

  /** The memory of its scenario that a supersede names. */
  lemma PriorAt(s: CodingScenario, rules: Rules, op: GoldOp) returns (i: nat)
    requires ScenarioOk(s, rules) && op in s.goldOps && op.op == Str("supersede")
    ensures op.priorId.Str? && i < |s.goldMemories| && s.goldMemories[i].key == op.priorId.text
  {
    assert OpOk(op, Keys(s.goldMemories));
    i :| i < |s.goldMemories| && Keys(s.goldMemories)[i] == op.priorId.text;
  }

  lemma KeyIsOwn(ms: seq<FixtureMemory>, own: FixtureMemory)
    requires Distinct(Keys(ms)) && own in ms
    ensures NamesOne(own.key, ms)
    ensures forall m :: m in ms && m.key == own.key ==> m == own
  {
    var at :| 0 <= at < |ms| && ms[at] == own;
    assert Keys(ms)[at] == own.key;
    KeyNamesOne(ms, own.key);
  }

  /** The alternative of a bare `multi_hop` tag never helps: such a probe must skip as well. */
  lemma MultiHopScenariosSkip(ss: seq<CodingScenario>, rules: Rules, s: CodingScenario)
    requires WellFormed(ss, rules) && s in ss && s.pattern == MULTI_HOP_PATTERN
    ensures exists p :: p in s.probes && p.skipIfNoGraph
  {
    var p :| p in s.probes && SkipsGraph(p);
    assert ProbeOk(p, rules);
  }

  /** A pack needs a scenario of its own for every required pattern. */
  lemma EveryRequiredPatternTakesAScenario(ss: seq<CodingScenario>, rules: Rules)
    requires WellFormed(ss, rules) && Distinct(rules.required)
    ensures |ss| >= |rules.required|
  {
    var patterns := set s | s in ss :: s.pattern;
    PatternsCount(ss);
    forall x | x in rules.required ensures x in patterns {
      assert HasExemplar(ss, x);
    }
    DistinctFits(rules.required, patterns);
  }

  lemma {:induction false} PatternsCount(ss: seq<CodingScenario>)
    ensures |set s | s in ss :: s.pattern| <= |ss|
  {
    if ss != [] {
      var init, last := ss[..|ss| - 1], ss[|ss| - 1];
      PatternsCount(init);
      assert ss == init + [last];
      assert (set s | s in ss :: s.pattern) == (set s | s in init :: s.pattern) + {last.pattern};
    }
  }

  lemma {:induction false} DistinctFits(xs: seq<string>, into: set<string>)
    requires Distinct(xs) && forall x :: x in xs ==> x in into
    ensures |xs| <= |into|
  {
    if xs != [] {
      var init, last := xs[..|xs| - 1], xs[|xs| - 1];
      assert last !in init;
      DistinctFits(init, into - {last});
    }
  }

  /** The rules of the source, for any timestamp and category parser. */
  function PackRules(timestamp: string -> bool, category: string -> bool): Rules {
    Rules(PATTERNS, PATTERNS, timestamp, category)
  }

  /** Each pattern carries its own two-digit number. */
  function Number(pattern: string): int {
    if |pattern| < 3 then 0 else (pattern[1] as int - '0' as int) * 10 + pattern[2] as int - '0' as int
  }

  lemma NumberAt(i: nat)
    requires i < |PATTERNS|
    ensures Number(PATTERNS[i]) == i + 1
  {
  }

  /** Under the source's lists a valid pack has an exemplar for each of the twenty patterns. */
  lemma PackNeedsTwentyScenarios(ss: seq<CodingScenario>, timestamp: string -> bool, category: string -> bool)
    requires WellFormed(ss, PackRules(timestamp, category))
    ensures |ss| >= 20
  {
    forall i, j | 0 <= i < j < |PATTERNS| ensures PATTERNS[i] != PATTERNS[j] {
      NumberAt(i);
      NumberAt(j);
    }
    EveryRequiredPatternTakesAScenario(ss, PackRules(timestamp, category));
  }
}
