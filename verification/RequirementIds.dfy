/**
 The scanner for requirement ids such as `JOB-003` (`find_ids`) and what it finds:
 exactly the places where 2 to 5 upper-case letters, a dash and 3 digits stand
 without a letter, digit or dash on either side.
 */
module RequirementIds {
  import opened Wrappers
  import opened Texts

  const DASH: Byte := 0x2D
  const STAR: Byte := 0x2A

  predicate IsUpper(b: Byte) { 0x41 <= b <= 0x5A }

  predicate IsDigit(b: Byte) { 0x30 <= b <= 0x39 }

  predicate IsAlnum(b: Byte) { IsUpper(b) || IsDigit(b) || 0x61 <= b <= 0x7A }

  predicate Joins(b: Byte) { IsAlnum(b) || b == DASH }

  // ---- Declarative meaning -------------------------------------------------------

  /** An id whose letters are the `len` bytes at `p`. */
  predicate IsIdOf(t: Text, p: nat, len: nat) {
    && 2 <= len <= 5
    && p + len + 4 <= |t|
    && (forall k :: p <= k < p + len ==> IsUpper(t[k]))
    && t[p + len] == DASH
    && IsDigit(t[p + len + 1]) && IsDigit(t[p + len + 2]) && IsDigit(t[p + len + 3])
    && (p == 0 || !Joins(t[p - 1]))
    && (p + len + 4 == |t| || !Joins(t[p + len + 4]))
  }

  /** The number of letters of the id at `p`, zero when none starts there. */
  function Letters(t: Text, p: nat): nat {
    if IsIdOf(t, p, 2) then 2
    else if IsIdOf(t, p, 3) then 3
    else if IsIdOf(t, p, 4) then 4
    else if IsIdOf(t, p, 5) then 5
    else 0
  }

  lemma LettersAreUnique(t: Text, p: nat, len: nat)
    requires IsIdOf(t, p, len)
    ensures Letters(t, p) == len
  {
    assert t[p + len] == DASH;
    var found := Letters(t, p);
    assert t[p + found] == DASH;
  }

  predicate InStars(t: Text, p: nat) {
    p >= 2 && p <= |t| && t[p - 1] == STAR && t[p - 2] == STAR
  }

  predicate Starts(t: Text, p: nat, definitions: bool) {
    Letters(t, p) > 0 && (definitions ==> InStars(t, p))
  }

  function IdAt(t: Text, p: nat): Text {
    if p + Letters(t, p) + 4 <= |t| then t[p..p + Letters(t, p) + 4] else []
  }

  /** The numbers of `[p, n)` that `hit` accepts, in order. */
  function Hits(hit: nat -> bool, p: nat, n: nat): seq<nat>
    decreases n - p
  {
    if p >= n then [] else (if hit(p) then [p] else []) + Hits(hit, p + 1, n)
  }

  function Each(f: nat -> Text, ps: seq<nat>): seq<Text> {
    seq(|ps|, i requires 0 <= i < |ps| => f(ps[i]))
  }

  function StartsIn(t: Text, definitions: bool): nat -> bool { (p: nat) => Starts(t, p, definitions) }

  function IdIn(t: Text): nat -> Text { (p: nat) => IdAt(t, p) }

  function StarsIn(t: Text): nat -> bool { (p: nat) => InStars(t, p) }

  /** Where the ids of a text start; with `definitions` only those right after `**`. */
  function Positions(t: Text, definitions: bool): seq<nat> {
    Hits(StartsIn(t, definitions), 0, |t|)
  }

  /** The ids of a text, in order. */
  function Ids(t: Text, definitions: bool): seq<Text> {
    Each(IdIn(t), Positions(t, definitions))
  }

  lemma {:induction false} HitsAreTheHits(hit: nat -> bool, p: nat, n: nat)
    ensures forall q: nat :: q in Hits(hit, p, n) <==> p <= q < n && hit(q)
    ensures forall i, j :: 0 <= i < j < |Hits(hit, p, n)| ==> Hits(hit, p, n)[i] < Hits(hit, p, n)[j]
    decreases n - p
  {
    if p < n {
      HitsAreTheHits(hit, p + 1, n);
      var rest := Hits(hit, p + 1, n);
      var head := if hit(p) then [p] else [];
      assert Hits(hit, p, n) == head + rest;
      assert forall q: nat :: q in head + rest <==> q in head || q in rest;
      assert forall i :: 0 <= i < |rest| ==> rest[i] in rest;
    }
  }

  /** A definition stands right after two asterisks. */
  lemma StarredAre(t: Text, q: nat)
    ensures q in Positions(t, true) <==>
      q in Positions(t, false) && 2 <= q <= |t| && t[q - 1] == 0x2A && t[q - 2] == 0x2A
  {
    PositionsAreOccurrences(t, true);
    PositionsAreOccurrences(t, false);
  }

  /** The text of an id: two to five capitals, a dash and three digits, as they stand. */
  lemma IdTextIs(t: Text, p: nat, len: nat)
    requires IsIdOf(t, p, len)
    ensures IdAt(t, p) == t[p..p + len + 4] && |IdAt(t, p)| == len + 4
  {
    LettersAreUnique(t, p, len);
  }

  /** The positions are exactly the occurrences, in increasing order. */
  lemma PositionsAreOccurrences(t: Text, definitions: bool)
    ensures forall q: nat :: q in Positions(t, definitions) <==> q < |t| && Starts(t, q, definitions)
    ensures forall i, j :: 0 <= i < j < |Positions(t, definitions)| ==>
      Positions(t, definitions)[i] < Positions(t, definitions)[j]
  {
    HitsAreTheHits(StartsIn(t, definitions), 0, |t|);
  }

  function Keep(keep: nat -> bool, ps: seq<nat>): seq<nat> {
    if ps == [] then [] else (if keep(ps[0]) then [ps[0]] else []) + Keep(keep, ps[1..])
  }

  lemma {:induction false} KeepingHits(hit: nat -> bool, keep: nat -> bool, both: nat -> bool, p: nat, n: nat)
    requires forall q :: both(q) == (hit(q) && keep(q))
    ensures Hits(both, p, n) == Keep(keep, Hits(hit, p, n))
    decreases n - p
  {
    if p < n {
      KeepingHits(hit, keep, both, p + 1, n);
      var rest := Hits(hit, p + 1, n);
      if hit(p) {
        assert Hits(hit, p, n)[1..] == rest;
      } else {
        assert Hits(hit, p, n) == rest && Hits(both, p, n) == Hits(both, p + 1, n);
      }
    }
  }

  /** The definitions are exactly the subsequence of occurrences preceded by `**`. */
  lemma DefinitionsAreTheStarred(t: Text)
    ensures Positions(t, true) == Keep(StarsIn(t), Positions(t, false))
  {
    KeepingHits(StartsIn(t, false), StarsIn(t), StartsIn(t, true), 0, |t|);
  }

  // ---- The scanner ------------------------------------------------------------------

  /** `hit` and `idAt` stand for the meaning of one text and mode. */
  ghost predicate Means(hit: nat -> bool, idAt: nat -> Text, t: Text, definitions: bool) {
    && (forall p: nat {:trigger Starts(t, p, definitions)} :: hit(p) == Starts(t, p, definitions))
    && (forall p: nat {:trigger IdAt(t, p)} :: idAt(p) == IdAt(t, p))
  }

  lemma {:induction false} NoHits(hit: nat -> bool, p: nat, q: nat, n: nat)
    requires p <= q <= n && forall k :: p <= k < q ==> !hit(k)
    ensures Hits(hit, p, n) == Hits(hit, q, n)
    decreases q - p
  {
    if p < q {
      NoHits(hit, p + 1, q, n);
    }
  }

  /** What the scanner checks after a maximal run of capitals is the declarative id. */
  lemma RunIsIdIff(t: Text, start: nat, i: nat, j: nat)
    requires start < i < |t| && (forall k :: start <= k < i ==> IsUpper(t[k]))
    requires t[i] == DASH && 2 <= i - start <= 5
    requires i + 1 <= j <= |t| && (forall k :: i + 1 <= k < j ==> IsDigit(t[k])) && (j == |t| || !IsDigit(t[j]))
    ensures Letters(t, start) > 0 <==>
      && j - (i + 1) == 3
      && (start == 0 || !Joins(t[start - 1]))
      && (j == |t| || !Joins(t[j]))
    ensures Letters(t, start) > 0 ==> Letters(t, start) == i - start
  {
    var len := Letters(t, start);
    if len > 0 {
      RunLengthIsLetters(t, start, i, len);
      assert IsDigit(t[i + 1]) && IsDigit(t[i + 2]) && IsDigit(t[i + 3]);
      assert j >= i + 4;
      assert i + 4 < |t| ==> !IsDigit(t[i + 4]);
    }
    if j - (i + 1) == 3 && (start == 0 || !Joins(t[start - 1])) && (j == |t| || !Joins(t[j])) {
      assert IsIdOf(t, start, i - start);
      LettersAreUnique(t, start, i - start);
    }
  }

  lemma RunLengthIsLetters(t: Text, start: nat, i: nat, len: nat)
    requires start < i <= |t| && (forall k :: start <= k < i ==> IsUpper(t[k])) && (i == |t| || !IsUpper(t[i]))
    requires IsIdOf(t, start, len)
    ensures start + len == i
  {
    assert !IsUpper(t[start + len]);
  }

  lemma ShortOrUndashedRunIsNoId(t: Text, start: nat, i: nat)
    requires start < i <= |t| && (forall k :: start <= k < i ==> IsUpper(t[k]))
    requires i == |t| || !IsUpper(t[i])
    requires !(i < |t| && t[i] == DASH && 2 <= i - start <= 5)
    ensures Letters(t, start) == 0
  {
    var len := Letters(t, start);
    if len > 0 {
      RunLengthIsLetters(t, start, i, len);
    }
  }

  /** No id starts inside a run of capitals, nor without a capital. */
  lemma NoIdHere(t: Text, p: nat, definitions: bool)
    requires p < |t| && (!IsUpper(t[p]) || (p > 0 && IsUpper(t[p - 1])))
    ensures !Starts(t, p, definitions)
  {
  }

  /** One run of capitals from `start`: where it ends, and the id it begins if it begins one. */
  method ScanRun(t: Text, start: nat, definitions: bool) returns (i: nat, id: Option<Text>)
    requires start < |t| && IsUpper(t[start])
    ensures start < i <= |t| && (i < |t| ==> !IsUpper(t[i])) && (forall k :: start <= k < i ==> IsUpper(t[k]))
    ensures id.Some? <==> Starts(t, start, definitions)
    ensures id.Some? ==> id.value == IdAt(t, start)
  {
    i := start;
    while i < |t| && IsUpper(t[i])
      invariant start <= i <= |t|
      invariant forall k :: start <= k < i ==> IsUpper(t[k])
    {
      i := i + 1;
    }
    id := None;
    if i < |t| && t[i] == DASH && 2 <= i - start <= 5 {
      var j := i + 1;
      while j < |t| && IsDigit(t[j])
        invariant i + 1 <= j <= |t|
        invariant forall k :: i + 1 <= k < j ==> IsDigit(t[k])
      {
        j := j + 1;
      }
      RunIsIdIff(t, start, i, j);
      if j - (i + 1) == 3 {
        var okPrev := start == 0 || !Joins(t[start - 1]);
        var okNext := j >= |t| || !Joins(t[j]);
        if okPrev && okNext && (!definitions || (start >= 2 && t[start - 2] == STAR && t[start - 1] == STAR)) {
          id := Some(t[start..j]);
        }
      }
    } else {
      ShortOrUndashedRunIsNoId(t, start, i);
    }
  }

  lemma EachAppend(f: nat -> Text, ps: seq<nat>, p: nat)
    ensures Each(f, ps + [p]) == Each(f, ps) + [f(p)]
  {
  }

  lemma HitTaken(hit: nat -> bool, seen: seq<nat>, p: nat, n: nat)
    requires p < n && hit(p)
    ensures seen + Hits(hit, p, n) == (seen + [p]) + Hits(hit, p + 1, n)
  {
    var rest := Hits(hit, p + 1, n);
    assert Hits(hit, p, n) == [p] + rest;
    assert seen + ([p] + rest) == (seen + [p]) + rest;
  }

  lemma HitPassed(hit: nat -> bool, p: nat, n: nat)
    requires p < n && !hit(p)
    ensures Hits(hit, p, n) == Hits(hit, p + 1, n)
  {
  }

  /** `find_ids`: one pass over the bytes; it returns on every input. */
  method FindIds(t: Text, definitions: bool) returns (out: seq<Text>)
    ensures out == Ids(t, definitions)
  {
    out := Scan(t, definitions, StartsIn(t, definitions), IdIn(t));
  }

  method Scan(t: Text, definitions: bool, ghost hit: nat -> bool, ghost idAt: nat -> Text) returns (out: seq<Text>)
    requires Means(hit, idAt, t, definitions)
    ensures out == Each(idAt, Hits(hit, 0, |t|))
  {
    out := [];
    var i := 0;
    ghost var seen: seq<nat> := [];
    while i < |t|
      invariant 0 <= i <= |t|
      invariant out == Each(idAt, seen)
      invariant Hits(hit, 0, |t|) == seen + Hits(hit, i, |t|)
    {
      if IsUpper(t[i]) {
        var start := i;
        var id: Option<Text>;
        i, id := ScanRun(t, start, definitions);
        forall k | start + 1 <= k < i ensures !hit(k) {
          NoIdHere(t, k, definitions);
        }
        NoHits(hit, start + 1, i, |t|);
        if id.Some? {
          HitTaken(hit, seen, start, |t|);
          EachAppend(idAt, seen, start);
          out := out + [id.value];
          seen := seen + [start];
        } else {
          HitPassed(hit, start, |t|);
        }
      } else {
        NoIdHere(t, i, definitions);
        HitPassed(hit, i, |t|);
        i := i + 1;
      }
    }
  }
}
