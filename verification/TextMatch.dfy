/**
 The gold-match convention of the answer track (`normalize`, `texts_match`): two
 texts match when one normal form contains the other or when they share half of
 the shorter set of long words. Matching is symmetric; it holds without any common
 character exactly when one of the texts has no word in it.
 */
module TextMatch {
  import opened Chars
  import Splitting

  // ---- Normal forms --------------------------------------------------------------------

  /** What the proofs need of `char::to_lowercase`. */
  ghost predicate Lowers(alnum: char -> bool, lower: char -> string) {
    forall c ::
      && (White(c) ==> lower(c) == [c])
      && (alnum(c) ==> lower(c) != [] && forall i :: 0 <= i < |lower(c)| ==> !White(lower(c)[i]))
  }

  /** Letters and digits in lower case, white space as it is, and a space for the rest. */
  function Folded(s: string, alnum: char -> bool, lower: char -> string): string {
    if s == [] then []
    else lower(if alnum(s[0]) || White(s[0]) then s[0] else ' ') + Folded(s[1..], alnum, lower)
  }

  /** `split_whitespace`: the maximal runs without white space. */
  function Words(s: string): (r: seq<string>)
    ensures s != [] && !White(s[0]) ==> r != []
  {
    if s == [] then []
    else if White(s[0]) then Words(s[1..])
    else if |s| == 1 || White(s[1]) then [[s[0]]] + Words(s[1..])
    else
      var rest := Words(s[1..]);
      [[s[0]] + rest[0]] + rest[1..]
  }

  function Normalize(s: string, alnum: char -> bool, lower: char -> string): string {
    Splitting.Join(Words(Folded(s, alnum, lower)), " ")
  }

  // ---- Matching ---------------------------------------------------------------------------

  predicate OccursAt(a: string, b: string, i: nat) { i + |b| <= |a| && a[i..i + |b|] == b }

  predicate Contains(a: string, b: string) { exists i: nat :: i <= |a| && OccursAt(a, b, i) }

  function LongWords(s: string): set<string> { set w | w in Words(s) && ByteLength(w) > 3 }

  function Min(a: nat, b: nat): nat { if a < b then a else b }

  predicate FormsMatch(a: string, b: string) {
    || Contains(a, b) || Contains(b, a)
    || (var ta, tb := LongWords(a), LongWords(b);
        ta != {} && tb != {} && |ta * tb| * 2 >= Min(|ta|, |tb|))
  }

  predicate TextsMatch(gold: string, pred: string, norm: string -> string) {
    gold != "" && pred != "" && FormsMatch(norm(gold), norm(pred))
  }

  // ---- Properties ---------------------------------------------------------------------------

  lemma MatchIsSymmetric(a: string, b: string, norm: string -> string)
    ensures TextsMatch(a, b, norm) <==> TextsMatch(b, a, norm)
  {
    var ta, tb := LongWords(norm(a)), LongWords(norm(b));
    assert ta * tb == tb * ta;
  }

  lemma MatchesItself(a: string, norm: string -> string)
    requires a != ""
    ensures TextsMatch(a, a, norm)
  {
    assert OccursAt(norm(a), norm(a), 0);
  }

  predicate Shares(a: string, b: string) { exists c :: c in a && c in b }

  /** Not empty, and made of characters of `s`. */
  predicate PartOf(w: string, s: string) { w != [] && forall c :: c in w ==> c in s }

  lemma {:induction false} WordIsFromText(s: string)
    ensures forall w :: w in Words(s) ==> PartOf(w, s)
  {
    if s != [] {
      WordIsFromText(s[1..]);
      var rest := Words(s[1..]);
      assert s == [s[0]] + s[1..];
      forall w | w in rest ensures PartOf(w, s) && PartOf([s[0]] + w, s) {
        assert PartOf(w, s[1..]);
      }
    }
  }

  lemma ContainedShares(a: string, b: string)
    requires Contains(a, b) && b != ""
    ensures Shares(a, b)
  {
    var i: nat :| i <= |a| && OccursAt(a, b, i);
    assert a[i..i + |b|][0] == a[i] && a[i] in a && b[0] in b;
  }

  lemma OverlapShares(a: string, b: string)
    requires LongWords(a) != {} && LongWords(b) != {}
    requires |LongWords(a) * LongWords(b)| * 2 >= Min(|LongWords(a)|, |LongWords(b)|)
    ensures Shares(a, b)
  {
    var both := LongWords(a) * LongWords(b);
    assert |LongWords(a)| > 0 && |LongWords(b)| > 0;
    var w :| w in both;
    WordIsFromText(a);
    WordIsFromText(b);
    assert PartOf(w, a) && PartOf(w, b) && w[0] in w;
  }

  /** The matches between texts that have nothing in common are those with an empty normal form. */
  lemma MatchWithoutCommonTextIff(gold: string, pred: string, norm: string -> string)
    requires gold != "" && pred != ""
    ensures TextsMatch(gold, pred, norm) && !Shares(norm(gold), norm(pred)) <==>
      norm(gold) == "" || norm(pred) == ""
  {
    var a, b := norm(gold), norm(pred);
    if a == "" || b == "" {
      assert OccursAt(a, b, 0) || OccursAt(b, a, 0);
    } else if TextsMatch(gold, pred, norm) {
      if Contains(a, b) {
        ContainedShares(a, b);
      } else if Contains(b, a) {
        ContainedShares(b, a);
      } else {
        OverlapShares(a, b);
      }
    }
  }

  lemma {:induction false} NoWordsIffWhite(s: string)
    ensures Words(s) == [] <==> AllWhite(s)
  {
    if s != [] {
      NoWordsIffWhite(s[1..]);
      assert AllWhite(s) <==> White(s[0]) && AllWhite(s[1..]) by {
        assert s == [s[0]] + s[1..];
      }
    }
  }

  lemma {:induction false} FoldedIsWhiteIff(s: string, alnum: char -> bool, lower: char -> string)
    requires Lowers(alnum, lower)
    ensures AllWhite(Folded(s, alnum, lower)) <==> forall i :: 0 <= i < |s| ==> !alnum(s[i])
  {
    if s != [] {
      FoldedIsWhiteIff(s[1..], alnum, lower);
      var head, rest := lower(if alnum(s[0]) || White(s[0]) then s[0] else ' '), Folded(s[1..], alnum, lower);
      WhiteConcat(head, rest);
      assert White(' ') && lower(' ') == [' '];
      if alnum(s[0]) {
        assert !White(head[0]);
      } else {
        assert AllWhite(head);
      }
      assert (forall i :: 0 <= i < |s| ==> !alnum(s[i])) <==>
        !alnum(s[0]) && forall i :: 0 <= i < |s[1..]| ==> !alnum(s[1..][i]) by {
        assert s == [s[0]] + s[1..];
      }
    }
  }

  lemma WhiteConcat(a: string, b: string)
    ensures AllWhite(a + b) <==> AllWhite(a) && AllWhite(b)
  {
    if AllWhite(a + b) {
      assert forall i :: 0 <= i < |a| ==> (a + b)[i] == a[i];
      forall i | 0 <= i < |b| ensures White(b[i]) {
        assert (a + b)[|a| + i] == b[i];
      }
    }
  }

  /** A normal form is empty exactly when no character of the text is a letter or digit. */
  lemma NormalFormIsEmptyIff(s: string, alnum: char -> bool, lower: char -> string)
    requires Lowers(alnum, lower)
    ensures Normalize(s, alnum, lower) == "" <==> forall i :: 0 <= i < |s| ==> !alnum(s[i])
  {
    var words := Words(Folded(s, alnum, lower));
    NoWordsIffWhite(Folded(s, alnum, lower));
    FoldedIsWhiteIff(s, alnum, lower);
    WordIsFromText(Folded(s, alnum, lower));
    if words != [] {
      assert words[0] in words && PartOf(words[0], Folded(s, alnum, lower));
      assert Splitting.Join(words, " ") != "";
    }
  }

  // ---- What a match ignores, and the threshold ------------------------------------------------

  /** Texts whose letters differ only in case have one normal form. */
  lemma {:induction false} CaseIsIgnored(a: string, b: string, alnum: char -> bool, lower: char -> string)
    requires |a| == |b|
    requires forall i :: 0 <= i < |a| ==>
      a[i] == b[i] || (alnum(a[i]) && alnum(b[i]) && lower(a[i]) == lower(b[i]))
    ensures Folded(a, alnum, lower) == Folded(b, alnum, lower)
    ensures Normalize(a, alnum, lower) == Normalize(b, alnum, lower)
  {
    if a != [] {
      CaseIsIgnored(a[1..], b[1..], alnum, lower);
    }
  }

  /** Punctuation counts as a space. */
  lemma {:induction false} PunctuationIsSpace(a: string, b: string, alnum: char -> bool, lower: char -> string)
    requires |a| == |b|
    requires forall i :: 0 <= i < |a| ==> a[i] == b[i] || (b[i] == ' ' && !alnum(a[i]) && !White(a[i]))
    ensures Folded(a, alnum, lower) == Folded(b, alnum, lower)
    ensures Normalize(a, alnum, lower) == Normalize(b, alnum, lower)
  {
    if a != [] {
      PunctuationIsSpace(a[1..], b[1..], alnum, lower);
    }
  }

  /** Of two sets the one that is not larger. */
  function Smaller(x: set<string>, y: set<string>): set<string> { if |x| <= |y| then x else y }

  function Larger(x: set<string>, y: set<string>): set<string> { if |x| <= |y| then y else x }

  /**
   When neither form contains the other, they match exactly when both have long words
   and the smaller set finds at least as many of its words in the larger as it misses.
   */
  lemma OverlapIff(a: string, b: string)
    requires !Contains(a, b) && !Contains(b, a)
    ensures var small, large := Smaller(LongWords(a), LongWords(b)), Larger(LongWords(a), LongWords(b));
      FormsMatch(a, b) <==> small != {} && |small * large| >= |small - large|
  {
    var ta, tb := LongWords(a), LongWords(b);
    var small, large := Smaller(ta, tb), Larger(ta, tb);
    assert small == small * large + (small - large);
    assert |small| == |small * large| + |small - large|;
    assert ta * tb == small * large || ta * tb == tb * ta == small * large;
    assert tb == {} ==> |tb| == 0;
    assert ta == {} ==> |ta| == 0;
  }

  /** Words of four bytes or more count as long. */
  lemma LongWordsAre(s: string, w: string)
    ensures w in LongWords(s) <==> w in Words(s) && ByteLength(w) >= 4
  {
  }

  /** Containing the other's normal form is enough. */
  lemma ContainedMatches(gold: string, pred: string, norm: string -> string, i: nat)
    requires gold != "" && pred != "" && OccursAt(norm(pred), norm(gold), i)
    ensures TextsMatch(gold, pred, norm) && TextsMatch(pred, gold, norm)
  {
    assert Contains(norm(pred), norm(gold));
  }
}
