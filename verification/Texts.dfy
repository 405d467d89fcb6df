/** Byte texts and the searches several modules make in them. */
module Texts {
  import opened Wrappers

  type Text = seq<Byte>

  predicate OccursAt(s: Text, pat: Text, i: nat) {
    i + |pat| <= |s| && s[i..i + |pat|] == pat
  }

  ghost predicate Free(s: Text, pat: Text) { forall i: nat :: !OccursAt(s, pat, i) }

  lemma OccursInTail(s: Text, pat: Text)
    requires s != []
    ensures forall j: nat :: OccursAt(s[1..], pat, j) <==> OccursAt(s, pat, j + 1)
  {
    forall j: nat ensures OccursAt(s[1..], pat, j) <==> OccursAt(s, pat, j + 1) {
      if j + 1 + |pat| <= |s| {
        assert s[1..][j..j + |pat|] == s[j + 1..j + 1 + |pat|];
      }
    }
  }

  /** Where `pat` first occurs in `s`. */
  function IndexOf(s: Text, pat: Text): (r: Option<nat>)
    ensures r.Some? ==> OccursAt(s, pat, r.value) && forall j: nat :: j < r.value ==> !OccursAt(s, pat, j)
    ensures r.None? ==> Free(s, pat)
    decreases |s|
  {
    if |s| < |pat| then None
    else if s[..|pat|] == pat then
      assert OccursAt(s, pat, 0);
      Some(0)
    else
      OccursInTail(s, pat);
      assert forall j: nat :: j > 0 && OccursAt(s, pat, j) ==> OccursAt(s[1..], pat, j - 1);
      match IndexOf(s[1..], pat)
      case None => None
      case Some(i) => Some(i + 1)
  }

  lemma FirstOccurrence(a: Text, pat: Text, b: Text)
    requires pat != [] && Free(a + pat[..|pat| - 1], pat)
    ensures IndexOf(a + (pat + b), pat) == Some(|a|)
  {
    var s := a + (pat + b);
    assert s[|a|..|a| + |pat|] == pat;
    assert OccursAt(s, pat, |a|);
    forall j: nat | j < |a| ensures !OccursAt(s, pat, j) {
      assert s[j..j + |pat|] == (a + pat[..|pat| - 1])[j..j + |pat|];
      assert !OccursAt(a + pat[..|pat| - 1], pat, j);
    }
  }

  lemma SliceOfSlice(s: Text, c: nat, d: nat, a: nat, b: nat)
    requires c <= d <= |s| && a <= b <= d - c
    ensures s[c..d][a..b] == s[c + a..c + b]
  {
    var x, y := s[c..d][a..b], s[c + a..c + b];
    assert |x| == |y|;
    forall i | 0 <= i < |x| ensures x[i] == y[i] {
    }
  }

  /** What precedes the first `b`, or all of `s`. */
  function Before(s: Text, b: Byte): Text {
    if s == [] || s[0] == b then [] else [s[0]] + Before(s[1..], b)
  }

  /** What follows the last `b`, or all of `s`. */
  function AfterLast(s: Text, b: Byte): Text {
    if s == [] || s[|s| - 1] == b then [] else AfterLast(s[..|s| - 1], b) + [s[|s| - 1]]
  }

  predicate EndsWith(s: Text, suffix: Text) {
    |suffix| <= |s| && s[|s| - |suffix|..] == suffix
  }
}
