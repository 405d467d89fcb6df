/**
 Reciprocal rank fusion (`rrf_fuse`) over reals: each id scores the sum of
 1 / (k + rank) over its occurrences; ids come by falling score, ties in the order
 they were first seen.
 */
module Fusion {
  import opened Sorting

  // ---- Meaning ---------------------------------------------------------------------

  /** The contribution of rank `idx + 1`. */
  function Share(k: nat, idx: nat): real { 1.0 / (k + idx + 1) as real }

  /** What the first `n` entries of one list give to `id`. */
  function ListScore<T(==)>(list: seq<T>, k: nat, id: T, n: nat): real
    requires n <= |list|
  {
    if n == 0 then 0.0
    else ListScore(list, k, id, n - 1) + (if list[n - 1] == id then Share(k, n - 1) else 0.0)
  }

  /** What the first `m` lists give to `id`. */
  function Score<T(==)>(lists: seq<seq<T>>, k: nat, id: T, m: nat): real
    requires m <= |lists|
  {
    if m == 0 then 0.0 else Score(lists, k, id, m - 1) + ListScore(lists[m - 1], k, id, |lists[m - 1]|)
  }

  /** The entries of one list appended to `seen`, each only once. */
  function SeenAfter<T(==)>(seen: seq<T>, list: seq<T>, n: nat): seq<T>
    requires n <= |list|
  {
    if n == 0 then seen
    else
      var before := SeenAfter(seen, list, n - 1);
      if list[n - 1] in before then before else before + [list[n - 1]]
  }

  /** The ids of the first `m` lists in first-seen order. */
  function Seen<T(==)>(lists: seq<seq<T>>, m: nat): seq<T>
    requires m <= |lists|
  {
    if m == 0 then [] else SeenAfter(Seen(lists, m - 1), lists[m - 1], |lists[m - 1]|)
  }

  lemma {:induction false} SeenAfterIsUnion<T>(seen: seq<T>, list: seq<T>, n: nat)
    requires n <= |list| && Distinct(seen)
    ensures Distinct(SeenAfter(seen, list, n))
    ensures forall x :: x in SeenAfter(seen, list, n) <==> x in seen || x in list[..n]
  {
    if n > 0 {
      SeenAfterIsUnion(seen, list, n - 1);
      assert list[..n] == list[..n - 1] + [list[n - 1]];
    }
  }

  /** First-seen order lists exactly the union of the inputs, once each. */
  lemma {:induction false} SeenIsUnion<T>(lists: seq<seq<T>>, m: nat)
    requires m <= |lists|
    ensures Distinct(Seen(lists, m))
    ensures forall x :: x in Seen(lists, m) <==> exists i :: 0 <= i < m && x in lists[i]
  {
    if m > 0 {
      SeenIsUnion(lists, m - 1);
      var list := lists[m - 1];
      SeenAfterIsUnion(Seen(lists, m - 1), list, |list|);
      assert list[..|list|] == list;
    }
  }

  // ---- The stable sort -----------------------------------------------------------------

  type Scored<T> = (T, real)

  /** Insert after every entry that scores at least as much. */
  function InsertDesc<T>(s: seq<Scored<T>>, x: Scored<T>): seq<Scored<T>> {
    if s == [] then [x]
    else if s[|s| - 1].1 >= x.1 then s + [x]
    else InsertDesc(s[..|s| - 1], x) + [s[|s| - 1]]
  }

  /** The stable sort by falling score. */
  function SortDesc<T>(s: seq<Scored<T>>): seq<Scored<T>> {
    if s == [] then [] else InsertDesc(SortDesc(s[..|s| - 1]), s[|s| - 1])
  }

  /** Falling score, ties by the order of `order`. */
  ghost predicate Ranked<T>(s: seq<Scored<T>>, order: seq<T>) {
    forall i, j :: 0 <= i < j < |s| ==> Precedes(s[i], s[j], order)
  }

  ghost predicate Precedes<T>(a: Scored<T>, b: Scored<T>, order: seq<T>) {
    a.1 > b.1 || (a.1 == b.1 && Before(order, a.0, b.0))
  }

  ghost predicate Before<T>(order: seq<T>, a: T, b: T) {
    exists i, j :: 0 <= i < j < |order| && order[i] == a && order[j] == b
  }

  lemma {:induction false} InsertDescRanks<T>(s: seq<Scored<T>>, x: Scored<T>, order: seq<T>)
    requires Ranked(s, order) && forall y :: y in s ==> Before(order, y.0, x.0)
    ensures Ranked(InsertDesc(s, x), order)
    ensures multiset(InsertDesc(s, x)) == multiset(s) + multiset{x}
  {
    if s == [] {
    } else if s[|s| - 1].1 >= x.1 {
      AppendRanks(s, x, order);
    } else {
      var init, last := s[..|s| - 1], s[|s| - 1];
      assert s == init + [last];
      assert forall y :: y in init ==> y in s;
      InsertDescRanks(init, x, order);
      var t := InsertDesc(init, x);
      forall y | y in t ensures Precedes(y, last, order) {
        assert y in multiset(t) && (y in init || y == x);
        if y in init { PrecedesLast(s, y, order); }
      }
      ExtendRanked(t, last, order);
    }
  }

  lemma PrecedesLast<T>(s: seq<Scored<T>>, y: Scored<T>, order: seq<T>)
    requires s != [] && y in s[..|s| - 1] && Ranked(s, order)
    ensures Precedes(y, s[|s| - 1], order)
  {
    var k :| 0 <= k < |s| - 1 && s[k] == y;
    assert Precedes(s[k], s[|s| - 1], order);
  }

  lemma ExtendRanked<T>(s: seq<Scored<T>>, x: Scored<T>, order: seq<T>)
    requires Ranked(s, order) && forall y :: y in s ==> Precedes(y, x, order)
    ensures Ranked(s + [x], order)
  {
    var t := s + [x];
    forall i, j | 0 <= i < j < |t| ensures Precedes(t[i], t[j], order) {
      if j == |s| {
        assert s[i] in s;
      } else {
        assert Precedes(s[i], s[j], order);
      }
    }
  }

  lemma AppendRanks<T>(s: seq<Scored<T>>, x: Scored<T>, order: seq<T>)
    requires s != [] && Ranked(s, order) && s[|s| - 1].1 >= x.1
    requires forall y :: y in s ==> Before(order, y.0, x.0)
    ensures Ranked(s + [x], order)
  {
    forall y | y in s ensures Precedes(y, x, order) {
      var i :| 0 <= i < |s| && s[i] == y;
      if i < |s| - 1 {
        assert Precedes(s[i], s[|s| - 1], order);
      }
    }
    ExtendRanked(s, x, order);
  }

  lemma BeforeInLonger<T>(order: seq<T>, more: seq<T>, a: T, b: T)
    requires Before(order, a, b)
    ensures Before(order + more, a, b)
  {
    var i, j :| 0 <= i < j < |order| && order[i] == a && order[j] == b;
    assert (order + more)[i] == a && (order + more)[j] == b;
  }

  function Fst<T>(s: seq<Scored<T>>): seq<T> { seq(|s|, i requires 0 <= i < |s| => s[i].0) }

  /** Sorting keeps the entries and ranks them, ties in their original order. */
  lemma {:induction false} SortDescRanks<T>(s: seq<Scored<T>>)
    ensures Ranked(SortDesc(s), Fst(s))
    ensures multiset(SortDesc(s)) == multiset(s)
  {
    if s != [] {
      var init, x := s[..|s| - 1], s[|s| - 1];
      assert s == init + [x] && Fst(s) == Fst(init) + [x.0];
      SortDescRanks(init);
      var t := SortDesc(init);
      forall i, j | 0 <= i < j < |t| ensures Precedes(t[i], t[j], Fst(s)) {
        assert Precedes(t[i], t[j], Fst(init));
        if t[i].1 == t[j].1 {
          BeforeInLonger(Fst(init), [x.0], t[i].0, t[j].0);
        }
      }
      forall y | y in t ensures Before(Fst(s), y.0, x.0) {
        assert y in multiset(t);
        var k :| 0 <= k < |init| && init[k] == y;
        assert Fst(s)[k] == y.0 && Fst(s)[|init|] == x.0;
      }
      InsertDescRanks(t, x, Fst(s));
    }
  }

  // ---- The fusion --------------------------------------------------------------------------

  /** The score table after some entries: the ids seen, with their sums. */
  ghost predicate Tallied<T>(scores: map<T, real>, order: seq<T>, lists: seq<seq<T>>, k: nat, m: nat, n: nat)
    requires m < |lists| && n <= |lists[m]|
  {
    && order == SeenAfter(Seen(lists, m), lists[m], n)
    && (forall x :: x in scores ==> x in order) && (forall x :: x in order ==> x in scores)
    && (forall x :: x in scores ==> scores[x] == Score(lists, k, x, m) + ListScore(lists[m], k, x, n))
  }

  ghost predicate TalliedLists<T>(scores: map<T, real>, order: seq<T>, lists: seq<seq<T>>, k: nat, m: nat)
    requires m <= |lists|
  {
    && order == Seen(lists, m)
    && (forall x :: x in scores ==> x in order) && (forall x :: x in order ==> x in scores)
    && (forall x :: x in scores ==> scores[x] == Score(lists, k, x, m))
  }

  lemma {:induction false} UnseenScoresNothing<T>(list: seq<T>, k: nat, id: T, n: nat)
    requires n <= |list| && id !in list[..n]
    ensures ListScore(list, k, id, n) == 0.0
  {
    if n > 0 {
      assert list[..n] == list[..n - 1] + [list[n - 1]];
      UnseenScoresNothing(list, k, id, n - 1);
    }
  }

  lemma {:induction false} UnlistedScoresNothing<T>(lists: seq<seq<T>>, k: nat, id: T, m: nat)
    requires m <= |lists| && forall i :: 0 <= i < m ==> id !in lists[i]
    ensures Score(lists, k, id, m) == 0.0
  {
    if m > 0 {
      UnlistedScoresNothing(lists, k, id, m - 1);
      assert lists[m - 1][..|lists[m - 1]|] == lists[m - 1];
      UnseenScoresNothing(lists[m - 1], k, id, |lists[m - 1]|);
    }
  }

  /** An id not yet in the table has contributed nothing so far. */
  lemma NewIdStartsAtZero<T>(lists: seq<seq<T>>, k: nat, id: T, m: nat, n: nat)
    requires m < |lists| && n <= |lists[m]| && id !in SeenAfter(Seen(lists, m), lists[m], n)
    ensures Score(lists, k, id, m) + ListScore(lists[m], k, id, n) == 0.0
  {
    SeenIsUnion(lists, m);
    SeenAfterIsUnion(Seen(lists, m), lists[m], n);
    UnlistedScoresNothing(lists, k, id, m);
    UnseenScoresNothing(lists[m], k, id, n);
  }

  method AddList<T(==)>(lists: seq<seq<T>>, k: nat, m: nat, scores0: map<T, real>, order0: seq<T>)
    returns (scores: map<T, real>, order: seq<T>)
    requires m < |lists| && TalliedLists(scores0, order0, lists, k, m)
    ensures TalliedLists(scores, order, lists, k, m + 1)
  {
    scores, order := scores0, order0;
    var list := lists[m];
    for n := 0 to |list|
      invariant Tallied(scores, order, lists, k, m, n)
    {
      var id := list[n];
      var contrib := 1.0 / (k + n + 1) as real;
      if id in scores {
        scores := scores[id := scores[id] + contrib];
      } else {
        NewIdStartsAtZero(lists, k, id, m, n);
        scores := scores[id := contrib];
        order := order + [id];
      }
    }
  }

  /** `rrf_fuse`; `SortDesc` is the standard library's stable sort. */
  method RrfFuse<T(==)>(lists: seq<seq<T>>, k: nat) returns (out: seq<Scored<T>>)
    ensures out == Fused(lists, k)
  {
    var scores: map<T, real> := map[];
    var order: seq<T> := [];
    for m := 0 to |lists|
      invariant TalliedLists(scores, order, lists, k, m)
    {
      scores, order := AddList(lists, k, m, scores, order);
    }
    var unsorted := seq(|order|, i requires 0 <= i < |order| && order[i] in scores => (order[i], scores[order[i]]));
    assert unsorted == Unsorted(lists, k);
    out := SortDesc(unsorted);
  }

  function Unsorted<T(==)>(lists: seq<seq<T>>, k: nat): seq<Scored<T>> {
    var order := Seen(lists, |lists|);
    seq(|order|, i requires 0 <= i < |order| => (order[i], Score(lists, k, order[i], |lists|)))
  }

  function Fused<T(==)>(lists: seq<seq<T>>, k: nat): seq<Scored<T>> { SortDesc(Unsorted(lists, k)) }

  /**
   The output lists exactly the union of the inputs, once each, every id with its
   score, by falling score with ties in first-seen order.
   */
  lemma FusedIsRankedUnion<T>(lists: seq<seq<T>>, k: nat)
    ensures forall e :: e in Fused(lists, k) <==>
      (exists i :: 0 <= i < |lists| && e.0 in lists[i]) && e.1 == Score(lists, k, e.0, |lists|)
    ensures Ranked(Fused(lists, k), Seen(lists, |lists|))
    ensures |Fused(lists, k)| == |Seen(lists, |lists|)|
  {
    var u, out := Unsorted(lists, k), Fused(lists, k);
    var order := Seen(lists, |lists|);
    SortDescRanks(u);
    assert Fst(u) == order;
    SeenIsUnion(lists, |lists|);
    assert |out| == |multiset(out)| && |u| == |multiset(u)|;
    forall e ensures e in out <==> e.0 in order && e.1 == Score(lists, k, e.0, |lists|) {
      assert e in out <==> e in multiset(out);
      assert e in u <==> e in multiset(u);
      if e.0 in order && e.1 == Score(lists, k, e.0, |lists|) {
        var i :| 0 <= i < |order| && order[i] == e.0;
        assert u[i] == e;
      }
    }
  }

  // ---- Dominance --------------------------------------------------------------------------------

  /** `a` is at least as well placed as `b` in a list: `b` is absent, or `a` stands before it. */
  ghost predicate WeaklyAhead<T>(list: seq<T>, a: T, b: T) {
    b in list ==> Before(list, a, b)
  }

  lemma ShareFalls(k: nat, i: nat, j: nat)
    requires i < j
    ensures Share(k, i) > Share(k, j) > 0.0
  {
    var x, y := (k + i + 1) as real, (k + j + 1) as real;
    assert 0.0 < x < y;
    Reciprocal(x, y);
  }

  lemma Reciprocal(x: real, y: real)
    requires 0.0 < x < y
    ensures 1.0 / x > 1.0 / y > 0.0
  {
    assert 1.0 / x - 1.0 / y == (y - x) / (x * y);
  }

  lemma {:induction false} ScoreOfOneOccurrence<T>(list: seq<T>, k: nat, id: T, n: nat, p: nat)
    requires Distinct(list) && p < n <= |list| && list[p] == id
    ensures ListScore(list, k, id, n) == Share(k, p)
  {
    if n - 1 == p {
      assert id !in list[..p];
      UnseenScoresNothing(list, k, id, p);
    } else {
      ScoreOfOneOccurrence(list, k, id, n - 1, p);
    }
  }

  /** In one duplicate-free list the better placed id gains at least as much, and more if listed. */
  lemma AheadGainsMore<T>(list: seq<T>, k: nat, a: T, b: T)
    requires Distinct(list) && a != b && WeaklyAhead(list, a, b)
    ensures ListScore(list, k, a, |list|) >= ListScore(list, k, b, |list|) >= 0.0
    ensures a in list ==> ListScore(list, k, a, |list|) > ListScore(list, k, b, |list|)
  {
    assert list[..|list|] == list;
    if b in list {
      var i, j :| 0 <= i < j < |list| && list[i] == a && list[j] == b;
      ScoreOfOneOccurrence(list, k, a, |list|, i);
      ScoreOfOneOccurrence(list, k, b, |list|, j);
      ShareFalls(k, i, j);
    } else {
      UnseenScoresNothing(list, k, b, |list|);
      if a in list {
        var i :| 0 <= i < |list| && list[i] == a;
        ScoreOfOneOccurrence(list, k, a, |list|, i);
        ShareFalls(k, i, i + 1);
      } else {
        UnseenScoresNothing(list, k, a, |list|);
      }
    }
  }

  lemma {:induction false} AheadScoresMore<T>(lists: seq<seq<T>>, k: nat, a: T, b: T, m: nat)
    requires m <= |lists| && a != b
    requires forall i :: 0 <= i < |lists| ==> Distinct(lists[i]) && WeaklyAhead(lists[i], a, b)
    ensures Score(lists, k, a, m) >= Score(lists, k, b, m)
    ensures (exists i :: 0 <= i < m && a in lists[i]) ==> Score(lists, k, a, m) > Score(lists, k, b, m)
  {
    if m > 0 {
      AheadScoresMore(lists, k, a, b, m - 1);
      AheadGainsMore(lists[m - 1], k, a, b);
    }
  }

  /**
   Consensus: over duplicate-free lists, an id that is listed and never behind
   another comes before it in the output.
   */
  lemma ConsensusPrecedes<T>(lists: seq<seq<T>>, k: nat, a: T, b: T, i: nat, j: nat)
    requires a != b
    requires forall l :: 0 <= l < |lists| ==> Distinct(lists[l]) && WeaklyAhead(lists[l], a, b)
    requires i < |Fused(lists, k)| && Fused(lists, k)[i].0 == a
    requires j < |Fused(lists, k)| && Fused(lists, k)[j].0 == b
    ensures i < j
  {
    var out := Fused(lists, k);
    FusedIsRankedUnion(lists, k);
    assert out[i] in out && out[j] in out;
    AheadScoresMore(lists, k, a, b, |lists|);
    forall p, q | 0 <= p < q < |out| ensures out[p].1 >= out[q].1 {
      assert Precedes(out[p], out[q], Seen(lists, |lists|));
    }
  }

  // ---- What a score is -------------------------------------------------------------------------

  /** A share times its rank plus `k` is one. */
  lemma ShareIsReciprocal(k: nat, idx: nat)
    ensures Share(k, idx) * (k + idx + 1) as real == 1.0
  {
  }

  /** Fusing one duplicate-free list: the id at rank p + 1 scores the reciprocal of k + p + 1. */
  lemma OneListScores<T>(list: seq<T>, k: nat, p: nat)
    requires Distinct(list) && p < |list|
    ensures forall e :: e in Fused([list], k) && e.0 == list[p] ==> e.1 * (k + p + 1) as real == 1.0
    ensures exists e :: e in Fused([list], k) && e.0 == list[p]
  {
    FusedIsRankedUnion([list], k);
    ScoreOfOneOccurrence(list, k, list[p], |list|, p);
    ShareIsReciprocal(k, p);
    assert Score([list], k, list[p], 0) == 0.0 && Score([list], k, list[p], 1) == ListScore(list, k, list[p], |list|);
    assert [list][0] == list && list[p] in [list][0];
    assert (list[p], Score([list], k, list[p], 1)) in Fused([list], k);
  }

  /** Scores add up over lists. */
  lemma {:induction false} ScoresAdd<T>(lists: seq<seq<T>>, more: seq<seq<T>>, k: nat, id: T, n: nat)
    requires n <= |more|
    ensures Score(lists + more, k, id, |lists| + n) == Score(lists, k, id, |lists|) + Score(more, k, id, n)
  {
    if n == 0 {
      ScoreIgnoresLater(lists, more, k, id, |lists|);
    } else {
      ScoresAdd(lists, more, k, id, n - 1);
      assert (lists + more)[|lists| + n - 1] == more[n - 1];
    }
  }

  lemma {:induction false} ScoreIgnoresLater<T>(lists: seq<seq<T>>, more: seq<seq<T>>, k: nat, id: T, m: nat)
    requires m <= |lists|
    ensures Score(lists + more, k, id, m) == Score(lists, k, id, m)
  {
    if m > 0 {
      ScoreIgnoresLater(lists, more, k, id, m - 1);
      assert (lists + more)[m - 1] == lists[m - 1];
    }
  }

  /** Every entry of a fusion scores the sum of its scores in the fusions of the two halves. */
  lemma EntriesAdd<T(!new)>(lists: seq<seq<T>>, more: seq<seq<T>>, k: nat, e: Scored<T>)
    requires e in Fused(lists + more, k)
    ensures e.1 == ScoreIn(Fused(lists, k), e.0) + ScoreIn(Fused(more, k), e.0)
  {
    FusedIsRankedUnion(lists + more, k);
    ScoresAdd(lists, more, k, e.0, |more|);
    ScoreInFused(lists, k, e.0);
    ScoreInFused(more, k, e.0);
  }

  /** The score an output gives to an id, nothing when it is not listed. */
  ghost function ScoreIn<T(!new)>(out: seq<Scored<T>>, id: T): real {
    if exists e :: e in out && e.0 == id then var e :| e in out && e.0 == id; e.1 else 0.0
  }

  lemma ScoreInFused<T(!new)>(lists: seq<seq<T>>, k: nat, id: T)
    ensures ScoreIn(Fused(lists, k), id) == Score(lists, k, id, |lists|)
  {
    FusedIsRankedUnion(lists, k);
    if !exists e :: e in Fused(lists, k) && e.0 == id {
      assert (id, Score(lists, k, id, |lists|)) !in Fused(lists, k);
      UnlistedScoresNothing(lists, k, id, |lists|);
    }
  }
}
