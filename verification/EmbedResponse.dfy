/**
 Validation of an embedding provider's response (`validate_embed_response`): items
 tagged with an index are placed into one slot each. A response that passes every
 check in the loop fills every slot, by counting.
 */
module EmbedResponse {
  import opened Wrappers

  /** A 32-bit float as far as the validation looks at it. */
  datatype Float = Finite(value: real) | NotFinite

  type Vector = seq<Float>

  datatype Item = Item(embedding: Vector, index: nat)

  datatype EmbedError =
    | WrongCount(got: nat)
    | IndexOutOfRange
    | DuplicateIndex
    | EmptyVector
    | DimensionMismatch(got: nat)
    | NonFinite
    | Incomplete

  // ---- Meaning --------------------------------------------------------------------

  predicate GoodVector(v: Vector, dimension: nat) {
    v != [] && |v| == dimension && forall x :: x in v ==> x.Finite?
  }

  /** One item per position, every vector finite and of the dimension. */
  ghost predicate Acceptable(data: seq<Item>, expected: nat, dimension: nat) {
    && |data| == expected
    && (forall i :: 0 <= i < |data| ==> data[i].index < expected && GoodVector(data[i].embedding, dimension))
    && (forall i, j :: 0 <= i < j < |data| ==> data[i].index != data[j].index)
  }

  /** Position by position, the vector tagged with that position. */
  ghost predicate Placed(data: seq<Item>, out: seq<Vector>) {
    |out| == |data| && forall i :: 0 <= i < |data| ==> data[i].index < |out| && out[data[i].index] == data[i].embedding
  }

  /** What is wrong with one item, in the order the checks are made. */
  function Fault(item: Item, taken: bool, expected: nat, dimension: nat): Option<EmbedError> {
    if item.index >= expected then Some(IndexOutOfRange)
    else if taken then Some(DuplicateIndex)
    else if item.embedding == [] then Some(EmptyVector)
    else if |item.embedding| != dimension then Some(DimensionMismatch(|item.embedding|))
    else if exists x :: x in item.embedding && x.NotFinite? then Some(NonFinite)
    else None
  }

  predicate TagSeen(data: seq<Item>, n: nat, tag: nat)
    requires n <= |data|
  {
    exists k :: 0 <= k < n && data[k].index == tag
  }

  /** The first complaint a pass over the first `n` items makes. */
  function Complaint(data: seq<Item>, n: nat, expected: nat, dimension: nat): Option<EmbedError>
    requires n <= |data|
  {
    if n == 0 then None
    else
      var earlier := Complaint(data, n - 1, expected, dimension);
      if earlier.Some? then earlier
      else Fault(data[n - 1], TagSeen(data, n - 1, data[n - 1].index), expected, dimension)
  }

  lemma {:induction false} NoComplaintMeansGood(data: seq<Item>, n: nat, expected: nat, dimension: nat)
    requires n <= |data| && Complaint(data, n, expected, dimension).None?
    ensures forall i :: 0 <= i < n ==> data[i].index < expected && GoodVector(data[i].embedding, dimension)
    ensures forall i, j :: 0 <= i < j < n ==> data[i].index != data[j].index
  {
    if n > 0 {
      NoComplaintMeansGood(data, n - 1, expected, dimension);
      assert !TagSeen(data, n - 1, data[n - 1].index);
    }
  }

  /** Which fault of an item is named: the first of the five checks it fails. */
  lemma FaultNamesTheFirstCheck(item: Item, taken: bool, expected: nat, dimension: nat)
    ensures var f := Fault(item, taken, expected, dimension);
      var placed := item.index < expected && !taken;
      && (f == Some(IndexOutOfRange) <==> item.index >= expected)
      && (f == Some(DuplicateIndex) <==> item.index < expected && taken)
      && (f == Some(EmptyVector) <==> placed && item.embedding == [])
      && (f.Some? && f.value.DimensionMismatch? <==> placed && item.embedding != [] && |item.embedding| != dimension)
      && (f == Some(NonFinite) <==>
            placed && item.embedding != [] && |item.embedding| == dimension
            && exists x :: x in item.embedding && x.NotFinite?)
      && (f.None? <==> placed && GoodVector(item.embedding, dimension))
  {
  }

  /** The complaint of a pass is the fault of the first item that has one. */
  lemma {:induction false} ComplaintIsTheFirst(data: seq<Item>, n: nat, expected: nat, dimension: nat, i: nat)
    requires i < n <= |data|
    requires Fault(data[i], TagSeen(data, i, data[i].index), expected, dimension).Some?
    requires forall k :: 0 <= k < i ==> Fault(data[k], TagSeen(data, k, data[k].index), expected, dimension).None?
    ensures Complaint(data, n, expected, dimension)
      == Fault(data[i], TagSeen(data, i, data[i].index), expected, dimension)
  {
    if n - 1 > i {
      ComplaintIsTheFirst(data, n - 1, expected, dimension, i);
    } else {
      NoFaultsNoComplaint(data, i, expected, dimension);
    }
  }

  lemma {:induction false} NoFaultsNoComplaint(data: seq<Item>, n: nat, expected: nat, dimension: nat)
    requires n <= |data|
    requires forall k :: 0 <= k < n ==> Fault(data[k], TagSeen(data, k, data[k].index), expected, dimension).None?
    ensures Complaint(data, n, expected, dimension).None?
  {
    if n > 0 {
      NoFaultsNoComplaint(data, n - 1, expected, dimension);
    }
  }

  // ---- Counting -----------------------------------------------------------------------

  function Upto(n: nat): (s: set<nat>)
    ensures |s| == n && forall k: nat :: k in s <==> k < n
  {
    if n == 0 then {} else Upto(n - 1) + {n - 1}
  }

  function Tags(data: seq<Item>, n: nat): set<nat>
    requires n <= |data|
  {
    set k | 0 <= k < n :: data[k].index
  }

  lemma {:induction false} DistinctTagsCount(data: seq<Item>, n: nat)
    requires n <= |data| && forall i, j :: 0 <= i < j < n ==> data[i].index != data[j].index
    ensures |Tags(data, n)| == n
  {
    if n > 0 {
      DistinctTagsCount(data, n - 1);
      assert Tags(data, n) == Tags(data, n - 1) + {data[n - 1].index};
      assert data[n - 1].index !in Tags(data, n - 1);
    }
  }

  lemma SubsetOfSameSize(a: set<nat>, b: set<nat>)
    requires a <= b && |a| == |b|
    ensures a == b
  {
    if a != b {
      var x :| x in b && x !in a;
      assert a <= b - {x};
      SmallerSubset(a, b - {x});
    }
  }

  lemma {:induction false} SmallerSubset(a: set<nat>, b: set<nat>)
    requires a <= b
    ensures |a| <= |b|
  {
    if a != {} {
      var x :| x in a;
      SmallerSubset(a - {x}, b - {x});
    }
  }

  /** Pigeonhole: distinct tags below the count cover every position. */
  lemma EveryPositionIsTagged(data: seq<Item>, expected: nat, dimension: nat, p: nat)
    requires Acceptable(data, expected, dimension) && p < expected
    ensures exists i :: 0 <= i < |data| && data[i].index == p
  {
    DistinctTagsCount(data, |data|);
    SubsetOfSameSize(Tags(data, |data|), Upto(expected));
    assert p in Tags(data, |data|);
  }

  // ---- The validation -------------------------------------------------------------------------

  /** A full pass over the slots: the vectors, or the error for a missing one. */
  method Collect(slots: array<Option<Vector>>) returns (r: Result<seq<Vector>, EmbedError>)
    ensures r.Ok? <==> forall i :: 0 <= i < slots.Length ==> slots[i].Some?
    ensures r.Ok? ==> |r.value| == slots.Length && forall i :: 0 <= i < slots.Length ==> slots[i] == Some(r.value[i])
    ensures r.Err? ==> r.error == Incomplete
  {
    var out: seq<Vector> := [];
    for i := 0 to slots.Length
      invariant |out| == i && forall k :: 0 <= k < i ==> slots[k] == Some(out[k])
    {
      if slots[i].None? {
        return Err(Incomplete);
      }
      out := out + [slots[i].value];
    }
    return Ok(out);
  }

  /**
   Accepts exactly the acceptable responses, places each vector at its tag, and
   otherwise reports the first complaint; `Incomplete` is never reported.
   */
  method ValidateEmbedResponse(data: seq<Item>, expected: nat, dimension: nat)
    returns (r: Result<seq<Vector>, EmbedError>)
    ensures r.Ok? <==> Acceptable(data, expected, dimension)
    ensures r.Ok? ==> Placed(data, r.value)
    ensures r.Err? ==>
      Some(r.error) ==
        if |data| != expected then Some(WrongCount(|data|)) else Complaint(data, |data|, expected, dimension)
    ensures r.Err? ==> r.error != Incomplete
  {
    if |data| != expected {
      return Err(WrongCount(|data|));
    }
    var slots := new Option<Vector>[expected](_ => None);
    var fault := PlaceAll(data, slots, dimension);
    if fault.Some? {
      ComplaintStays(data, |data|, expected, dimension);
      return Err(fault.value);
    }
    AllPassed(data, slots[..], dimension);
    assert forall p :: 0 <= p < expected ==> slots[p] == slots[..][p];
    r := Collect(slots);
    PlacedFromSlots(data, slots[..], r.value);
  }

  /** The loop over the items, each into its slot, up to the first complaint. */
  method PlaceAll(data: seq<Item>, slots: array<Option<Vector>>, dimension: nat) returns (fault: Option<EmbedError>)
    requires slots.Length == |data| && forall p :: 0 <= p < slots.Length ==> slots[p].None?
    modifies slots
    ensures fault == Complaint(data, |data|, |data|, dimension)
    ensures fault.None? ==> Passed(data, |data|, slots[..], dimension)
  {
    var expected := |data|;
    for n := 0 to |data|
      invariant Passed(data, n, slots[..], dimension)
    {
      var item := data[n];
      fault := Fault(item, item.index < expected && slots[item.index].Some?, expected, dimension);
      NextItem(data, n, slots[..], dimension);
      if fault.Some? {
        ComplaintStays(data, n + 1, expected, dimension);
        return;
      }
      ghost var before := slots[..];
      slots[item.index] := Some(item.embedding);
      assert slots[..] == before[item.index := Some(item.embedding)];
    }
    fault := None;
  }

  /** A slot is filled when its tag has been seen, with the vector of that item. */
  ghost predicate SlotsHold(data: seq<Item>, n: nat, slots: seq<Option<Vector>>)
    requires n <= |data|
  {
    && (forall p: nat :: p < |slots| ==> (slots[p].Some? <==> TagSeen(data, n, p)))
    && (forall i :: 0 <= i < n ==> data[i].index < |slots| && slots[data[i].index] == Some(data[i].embedding))
  }

  lemma SlotsStep(data: seq<Item>, n: nat, slots: seq<Option<Vector>>)
    requires n < |data| && SlotsHold(data, n, slots)
    requires data[n].index < |slots| && !TagSeen(data, n, data[n].index)
    ensures SlotsHold(data, n + 1, slots[data[n].index := Some(data[n].embedding)])
  {
    forall p: nat ensures TagSeen(data, n + 1, p) <==> TagSeen(data, n, p) || p == data[n].index {
    }
  }

  /** What the loop keeps: no complaint about the first `n` items, each in its slot. */
  ghost predicate Passed(data: seq<Item>, n: nat, slots: seq<Option<Vector>>, dimension: nat) {
    && n <= |data| == |slots|
    && Complaint(data, n, |slots|, dimension).None?
    && SlotsHold(data, n, slots)
  }

  lemma NextItem(data: seq<Item>, n: nat, slots: seq<Option<Vector>>, dimension: nat)
    requires Passed(data, n, slots, dimension) && n < |data|
    ensures var item := data[n];
      var fault := Fault(item, item.index < |slots| && slots[item.index].Some?, |slots|, dimension);
      && Complaint(data, n + 1, |slots|, dimension) == fault
      && (fault.None? ==> Passed(data, n + 1, slots[item.index := Some(item.embedding)], dimension))
  {
    var item := data[n];
    assert item.index < |slots| ==> (slots[item.index].Some? <==> TagSeen(data, n, item.index));
    if item.index < |slots| && slots[item.index].None? {
      SlotsStep(data, n, slots);
    }
  }

  lemma AllPassed(data: seq<Item>, slots: seq<Option<Vector>>, dimension: nat)
    requires Passed(data, |data|, slots, dimension)
    ensures Acceptable(data, |data|, dimension)
    ensures forall p :: 0 <= p < |slots| ==> slots[p].Some?
  {
    NoComplaintMeansGood(data, |data|, |data|, dimension);
    forall p | 0 <= p < |slots| ensures slots[p].Some? {
      EveryPositionIsTagged(data, |data|, dimension, p);
      assert TagSeen(data, |data|, p);
    }
  }

  lemma PlacedFromSlots(data: seq<Item>, slots: seq<Option<Vector>>, out: seq<Vector>)
    requires SlotsHold(data, |data|, slots) && |slots| == |out| == |data|
    requires forall p :: 0 <= p < |slots| ==> slots[p] == Some(out[p])
    ensures Placed(data, out)
  {
  }

  /** A response with a complaint is not acceptable, and later items do not change the complaint. */
  lemma {:induction false} ComplaintStays(data: seq<Item>, n: nat, expected: nat, dimension: nat)
    requires n <= |data| && Complaint(data, n, expected, dimension).Some?
    ensures Complaint(data, |data|, expected, dimension) == Complaint(data, n, expected, dimension)
    ensures !Acceptable(data, expected, dimension)
    ensures Complaint(data, n, expected, dimension) != Some(Incomplete)
    decreases |data| - n
  {
    if n < |data| {
      ComplaintStays(data, n + 1, expected, dimension);
    } else {
      ComplaintMeansFault(data, n, expected, dimension);
    }
  }

  lemma {:induction false} ComplaintMeansFault(data: seq<Item>, n: nat, expected: nat, dimension: nat)
    requires n <= |data| && Complaint(data, n, expected, dimension).Some?
    ensures !Acceptable(data, expected, dimension)
    ensures Complaint(data, n, expected, dimension) != Some(Incomplete)
  {
    if Complaint(data, n - 1, expected, dimension).Some? {
      ComplaintMeansFault(data, n - 1, expected, dimension);
    }
  }

  // ---- Reordering ---------------------------------------------------------------------------------

  /** `perm` lists the same items in another order. */
  ghost predicate Reorders(data: seq<Item>, other: seq<Item>) {
    multiset(data) == multiset(other)
  }

  /** An item of one order is in the other, and a repeated tag stays repeated. */
  lemma ReorderedIsAcceptable(data: seq<Item>, other: seq<Item>, expected: nat, dimension: nat)
    requires Acceptable(data, expected, dimension) && Reorders(data, other)
    ensures Acceptable(other, expected, dimension)
  {
    assert |multiset(data)| == |multiset(other)|;
    forall i | 0 <= i < |other| ensures other[i] in data {
      assert other[i] in multiset(data);
    }
    forall i, j | 0 <= i < j < |other| ensures other[i].index != other[j].index {
      assert other[i] in data && other[j] in data;
      if other[i] == other[j] {
        TwiceInSeq(other, i, j);
        assert multiset(data)[other[i]] >= 2;
        OnceInData(data, other[i]);
      }
    }
  }

  lemma TwiceInSeq(s: seq<Item>, i: nat, j: nat)
    requires i < j < |s| && s[i] == s[j]
    ensures multiset(s)[s[i]] >= 2
  {
    assert s == s[..j] + [s[j]] + s[j + 1..];
    assert s[..j][i] == s[i] && s[i] in s[..j];
  }

  lemma {:induction false} OnceInData(data: seq<Item>, x: Item)
    requires forall i, j :: 0 <= i < j < |data| ==> data[i].index != data[j].index
    ensures multiset(data)[x] <= 1
  {
    if data != [] {
      var init, last := data[..|data| - 1], data[|data| - 1];
      assert data == init + [last];
      OnceInData(init, x);
      if last == x {
        assert x !in init;
      }
    }
  }

  /** An accepted response gives the same vectors whatever the order of its items. */
  lemma AcceptedResultIgnoresOrder(data: seq<Item>, other: seq<Item>, expected: nat, dimension: nat,
                                   out: seq<Vector>, out': seq<Vector>)
    requires Acceptable(data, expected, dimension) && Reorders(data, other)
    requires Placed(data, out) && Placed(other, out')
    ensures Acceptable(other, expected, dimension) && out == out'
  {
    ReorderedIsAcceptable(data, other, expected, dimension);
    forall p | 0 <= p < |out| ensures out[p] == out'[p] {
      EveryPositionIsTagged(data, expected, dimension, p);
      var i :| 0 <= i < |data| && data[i].index == p;
      assert data[i] in multiset(other);
      var j :| 0 <= j < |other| && other[j] == data[i];
      assert out'[other[j].index] == other[j].embedding;
    }
  }
}
