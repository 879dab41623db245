/**
 Price ranges of a LEGENDS round: the overlap check made when the round starts
 (src/schemas/rounds.schema.ts) and the choice of the winning range at settlement
 (src/services/resolution.service.ts).
 */
module PriceRanges {
  import opened Wrappers
  import StableSort

  datatype Range = Range(min: real, max: real)

  predicate Valid(r: Range) {
    r.min < r.max
  }

  predicate AllValid(ranges: seq<Range>) {
    forall i :: 0 <= i < |ranges| ==> Valid(ranges[i])
  }

  function ByMin(): (Range, Range) -> bool {
    (a: Range, b: Range) => a.min <= b.min
  }

  function SortRanges(ranges: seq<Range>): seq<Range> {
    StableSort.Sort(ranges, ByMin())
  }

  predicate Apart(a: Range, b: Range) {
    a.max <= b.min || b.max <= a.min
  }

  /** No two ranges share more than an end point. */
  predicate PairwiseApart(ranges: seq<Range>) {
    forall i, j :: 0 <= i < j < |ranges| ==> Apart(ranges[i], ranges[j])
  }

  /** The check looks at neighbours of the sorted list only, and counts the issues it raises. */
  method OverlapIssues(ranges: seq<Range>) returns (issues: nat)
    requires AllValid(ranges)
    ensures issues == 0 <==> PairwiseApart(ranges)
  {
    var sorted := SortRanges(ranges);
    issues := 0;
    var i := 1;
    while i < |sorted|
      invariant 1 <= i && (i <= |sorted| || sorted == [])
      invariant issues == 0 <==> forall k :: 1 <= k < i && k < |sorted| ==> sorted[k].min >= sorted[k - 1].max
    {
      if sorted[i].min < sorted[i - 1].max { issues := issues + 1; }
      i := i + 1;
    }
    SortKeepsApart(ranges);
    SortedByMin(ranges);
    NeighboursDecide(sorted);
  }

  lemma SortedByMin(ranges: seq<Range>)
    ensures StableSort.Sorted(SortRanges(ranges), ByMin())
    ensures AllValid(ranges) ==> AllValid(SortRanges(ranges))
  {
    StableSort.SortSorted(ranges, ByMin());
    StableSort.SameElements(SortRanges(ranges), ranges);
    forall i | 0 <= i < |SortRanges(ranges)| && AllValid(ranges) ensures Valid(SortRanges(ranges)[i]) {
      assert SortRanges(ranges)[i] in ranges;
    }
  }

  lemma ApartAppend(ranges: seq<Range>, x: Range)
    ensures PairwiseApart(ranges + [x]) <==> PairwiseApart(ranges) && forall y :: y in ranges ==> Apart(y, x)
  {
    var all := ranges + [x];
    if PairwiseApart(all) {
      forall i, j | 0 <= i < j < |ranges| ensures Apart(ranges[i], ranges[j]) {
        assert Apart(all[i], all[j]);
      }
      forall y | y in ranges ensures Apart(y, x) {
        var i :| 0 <= i < |ranges| && ranges[i] == y;
        assert Apart(all[i], all[|ranges|]);
      }
    }
  }

  lemma {:induction false} InsertKeepsApart(ranges: seq<Range>, x: Range)
    ensures PairwiseApart(StableSort.Insert(ranges, x, ByMin()))
       <==> PairwiseApart(ranges) && forall y :: y in ranges ==> Apart(y, x)
  {
    if ranges == [] {
    } else {
      var n := |ranges| - 1;
      var last := ranges[n];
      assert ranges == ranges[..n] + [last];
      if last.min <= x.min {
        ApartAppend(ranges, x);
      } else {
        var inner := StableSort.Insert(ranges[..n], x, ByMin());
        InsertKeepsApart(ranges[..n], x);
        ApartAppend(inner, last);
        ApartAppend(ranges[..n], last);
        StableSort.SameElements(inner, ranges[..n] + [x]);
        InsertedMembers(inner, ranges[..n], x, last);
      }
    }
  }

  lemma InsertedMembers(inner: seq<Range>, rest: seq<Range>, x: Range, last: Range)
    requires forall y :: y in inner <==> y in rest + [x]
    ensures (forall y :: y in inner ==> Apart(y, last)) <==> Apart(x, last) && forall y :: y in rest ==> Apart(y, last)
    ensures (forall y :: y in rest + [last] ==> Apart(y, x)) <==> Apart(last, x) && forall y :: y in rest ==> Apart(y, x)
  {
    assert forall y :: y in rest + [x] <==> y in rest || y == x;
    assert forall y :: y in rest + [last] <==> y in rest || y == last;
  }

  lemma {:induction false} SortKeepsApart(ranges: seq<Range>)
    ensures PairwiseApart(SortRanges(ranges)) <==> PairwiseApart(ranges)
  {
    if ranges != [] {
      var n := |ranges| - 1;
      SortKeepsApart(ranges[..n]);
      InsertKeepsApart(SortRanges(ranges[..n]), ranges[n]);
      StableSort.SameElements(SortRanges(ranges[..n]), ranges[..n]);
      ApartAppend(ranges[..n], ranges[n]);
      assert ranges == ranges[..n] + [ranges[n]];
    }
  }

  lemma {:induction false} EarlierEndsBefore(sorted: seq<Range>, i: nat, j: nat)
    requires AllValid(sorted) && i < j < |sorted|
    requires forall k :: 1 <= k < |sorted| ==> sorted[k].min >= sorted[k - 1].max
    ensures sorted[i].max <= sorted[j].min
  {
    if i < j - 1 {
      EarlierEndsBefore(sorted, i, j - 1);
    }
    assert sorted[j].min >= sorted[j - 1].max;
  }

  /** On a list sorted by lower bound, neighbours that do not overlap mean no two ranges do. */
  lemma NeighboursDecide(sorted: seq<Range>)
    requires AllValid(sorted) && StableSort.Sorted(sorted, ByMin())
    ensures (forall k :: 1 <= k < |sorted| ==> sorted[k].min >= sorted[k - 1].max) <==> PairwiseApart(sorted)
  {
    if forall k :: 1 <= k < |sorted| ==> sorted[k].min >= sorted[k - 1].max {
      forall i, j | 0 <= i < j < |sorted| ensures Apart(sorted[i], sorted[j]) {
        EarlierEndsBefore(sorted, i, j);
      }
    }
    if PairwiseApart(sorted) {
      forall k | 1 <= k < |sorted| ensures sorted[k].min >= sorted[k - 1].max {
        assert Apart(sorted[k - 1], sorted[k]) && ByMin()(sorted[k - 1], sorted[k]);
        assert Valid(sorted[k]);
      }
    }
  }

  // ---------------------------------------------------------------------------
  // The winning range
  // ---------------------------------------------------------------------------

  /** Upper bounds are exclusive, except that of the last range. */
  predicate Covers(sorted: seq<Range>, i: nat, price: real)
    requires i < |sorted|
  {
    sorted[i].min <= price && (price < sorted[i].max || (i == |sorted| - 1 && price == sorted[i].max))
  }

  method WinningRange(ranges: seq<Range>, price: real) returns (winner: Option<Range>)
    requires AllValid(ranges)
    ensures winner == Winner(ranges, price)
  {
    var sorted := SortRanges(ranges);
    for i := 0 to |sorted|
      invariant forall k :: 0 <= k < i ==> !Covers(sorted, k, price)
    {
      if Covers(sorted, i, price) {
        FirstFrom(sorted, price, 0, i);
        return Some(sorted[i]);
      }
    }
    FirstFrom(sorted, price, 0, |sorted|);
    winner := None;
  }

  function First(sorted: seq<Range>, price: real, from: nat): Option<Range>
    requires from <= |sorted|
    decreases |sorted| - from
  {
    if from == |sorted| then None
    else if Covers(sorted, from, price) then Some(sorted[from])
    else First(sorted, price, from + 1)
  }

  function Winner(ranges: seq<Range>, price: real): Option<Range> {
    First(SortRanges(ranges), price, 0)
  }

  lemma FirstFrom(sorted: seq<Range>, price: real, from: nat, end: nat)
    requires from <= end <= |sorted| && forall k :: from <= k < end ==> !Covers(sorted, k, price)
    ensures First(sorted, price, from) == First(sorted, price, end)
    decreases end - from
  {
    if from < end {
      FirstFrom(sorted, price, from + 1, end);
    }
  }

  lemma {:induction false} FirstIsSome(sorted: seq<Range>, price: real, from: nat, i: nat)
    requires from <= i < |sorted| && Covers(sorted, i, price)
    requires forall k :: 0 <= k < |sorted| && k != i ==> !Covers(sorted, k, price)
    ensures First(sorted, price, from) == Some(sorted[i])
    decreases i - from
  {
    if from < i {
      FirstIsSome(sorted, price, from + 1, i);
    }
  }

  /** The range with the highest bounds, the last of the sorted list. */
  function Last(ranges: seq<Range>): Range
    requires ranges != []
  {
    SortRanges(ranges)[|ranges| - 1]
  }

  /**
   On ranges that pass the check, a range of the round wins exactly when the price
   lies in it, its upper bound counting only for the last range; so at most one wins.
   */
  lemma WinnerIff(ranges: seq<Range>, price: real, r: Range)
    requires AllValid(ranges) && PairwiseApart(ranges) && r in ranges
    ensures Winner(ranges, price) == Some(r) <==>
              r.min <= price && (price < r.max || (price == r.max && r == Last(ranges)))
  {
    var sorted := SortRanges(ranges);
    SortedByMin(ranges);
    SortKeepsApart(ranges);
    StableSort.SameElements(sorted, ranges);
    var i :| 0 <= i < |sorted| && sorted[i] == r;
    if Covers(sorted, i, price) {
      assert forall k :: 0 <= k < |sorted| && k != i ==> !Covers(sorted, k, price);
      FirstIsSome(sorted, price, 0, i);
    } else if Winner(ranges, price) == Some(r) {
      var k := FirstCovers(sorted, price, 0);
    }
  }

  lemma FirstCovers(sorted: seq<Range>, price: real, from: nat) returns (k: nat)
    requires from <= |sorted| && First(sorted, price, from).Some?
    ensures k < |sorted| && Covers(sorted, k, price) && First(sorted, price, from) == Some(sorted[k])
    decreases |sorted| - from
  {
    if Covers(sorted, from, price) {
      k := from;
    } else {
      k := FirstCovers(sorted, price, from + 1);
    }
  }

}
