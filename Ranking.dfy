/**
 * Ordering retrieval candidates: the score comparison, the in-place sort by descending
 * score and the copy of the first identifiers of the sorted list.
 */
module Ranking {

  /** A candidate: an image identifier and its similarity score. */
  type Scored = (string, real)

  /** `compareByScore`: `a` goes before `b` when its score is strictly higher. */
  predicate CompareByScore(a: Scored, b: Scored)
  {
    a.1 > b.1
  }

  /**
   * The comparison is a strict weak ordering, as `std::sort` demands: irreflexive,
   * transitive, and candidates with equal scores are interchangeable.
   */
  lemma CompareByScoreStrictWeakOrder(a: Scored, b: Scored, c: Scored)
    ensures !CompareByScore(a, a)
    ensures CompareByScore(a, b) && CompareByScore(b, c) ==> CompareByScore(a, c)
    ensures !CompareByScore(a, b) && !CompareByScore(b, a) && !CompareByScore(b, c) && !CompareByScore(c, b)
      ==> !CompareByScore(a, c) && !CompareByScore(c, a)
  {
  }

  /** No candidate is ordered before an earlier one: the scores do not increase. */
  predicate SortedByScore(s: seq<Scored>)
  {
    forall i, j :: 0 <= i < j < |s| ==> !CompareByScore(s[j], s[i])
  }

  /**
   * The first `i` positions hold their final candidates: each of them scores at least as
   * high as every later candidate.
   */
  predicate SortedPrefix(s: seq<Scored>, i: nat)
  {
    forall p, q :: 0 <= p < q < |s| && p < i ==> s[p].1 >= s[q].1
  }

  /** Moving a highest remaining candidate to position `i` extends the sorted prefix. */
  lemma SelectionStep(s: seq<Scored>, i: nat, best: nat)
    requires SortedPrefix(s, i) && i <= best < |s|
    requires forall q :: i <= q < |s| ==> s[best].1 >= s[q].1
    ensures SortedPrefix(s[i := s[best]][best := s[i]], i + 1)
  {
  }

  /** The position of a highest score in `a[from..]`, the first one found. */
  method HighestFrom(a: array<Scored>, from: nat) returns (best: nat)
    requires from < a.Length
    ensures from <= best < a.Length
    ensures forall q :: from <= q < a.Length ==> a[best].1 >= a[q].1
  {
    best := from;
    var j := from + 1;
    while j < a.Length
      invariant from <= best < a.Length && from + 1 <= j <= a.Length
      invariant forall q :: from <= q < j ==> a[best].1 >= a[q].1
    {
      if CompareByScore(a[j], a[best]) {
        best := j;
      }
      j := j + 1;
    }
  }

  /** Exchanges two elements of the array. */
  method Swap(a: array<Scored>, i: nat, j: nat)
    requires i < a.Length && j < a.Length
    modifies a
    ensures a[..] == old(a[..])[i := old(a[j])][j := old(a[i])]
    ensures multiset(a[..]) == multiset(old(a[..]))
  {
    a[i], a[j] := a[j], a[i];
  }

  /**
   * `std::sort(.., compareByScore)`: the candidates are rearranged in place into an order of
   * non-increasing score. The sort is not stable, so nothing is promised about the order of
   * equal scores; the model sorts by selection.
   */
  method SortByScore(a: array<Scored>)
    modifies a
    ensures SortedByScore(a[..])
    ensures multiset(a[..]) == multiset(old(a[..]))
  {
    var i := 0;
    while i < a.Length
      invariant 0 <= i <= a.Length
      invariant SortedPrefix(a[..], i)
      invariant multiset(a[..]) == multiset(old(a[..]))
    {
      var best := HighestFrom(a, i);
      SelectionStep(a[..], i, best);
      Swap(a, i, best);
      i := i + 1;
    }
  }

  /** How many identifiers the top-n copy keeps: min(numResults, available), and 0 for numResults <= 0. */
  function TopCount(numResults: int, available: nat): (count: nat)
    ensures count <= available
    ensures numResults <= 0 ==> count == 0
    ensures 0 < numResults <= available ==> count == numResults
    ensures numResults >= available ==> count == available
  {
    if numResults <= 0 then 0 else if numResults < available then numResults else available
  }

  /** The identifiers of a list of candidates, in order. */
  function Ids(s: seq<Scored>): (ids: seq<string>)
    ensures |ids| == |s| && forall i :: 0 <= i < |s| ==> ids[i] == s[i].0
  {
    seq(|s|, i requires 0 <= i < |s| => s[i].0)
  }

  /** The loop that copies the identifiers of the first `min(numResults, |ranked|)` candidates. */
  method TakeTop(ranked: seq<Scored>, numResults: int) returns (top: seq<string>)
    ensures top == Ids(ranked[..TopCount(numResults, |ranked|)])
  {
    top := [];
    var limit := if numResults < |ranked| then numResults else |ranked|;
    var i := 0;
    while i < limit
      invariant 0 <= i <= |ranked| && (i == 0 || i <= limit)
      invariant top == Ids(ranked[..i])
    {
      assert Ids(ranked[..i + 1]) == Ids(ranked[..i]) + [ranked[i].0];
      top := top + [ranked[i].0];
      i := i + 1;
    }
  }

  /**
   * Taking the first candidates of a sorted list keeps the best: every candidate kept scores at
   * least as high as every candidate left out.
   */
  lemma TopDominates(ranked: seq<Scored>, count: nat)
    requires SortedByScore(ranked) && count <= |ranked|
    ensures forall i, j :: 0 <= i < count <= j < |ranked| ==> ranked[i].1 >= ranked[j].1
  {
  }
}
