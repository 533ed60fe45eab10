/** The allocator behind interface ids and public ports. */
module LowestFree {

  predicate Sorted(values: seq<int>) {
    forall i, j :: 0 <= i < j < |values| ==> values[i] <= values[j]
  }

  predicate Bounded(values: seq<int>, low: int) {
    forall i :: 0 <= i < |values| ==> low <= values[i]
  }

  lemma {:induction false} InsertSorts(v: int, values: seq<int>, low: int)
    requires Sorted(values) && Bounded(values, low) && low <= v
    ensures Sorted(Insert(v, values)) && Bounded(Insert(v, values), low)
  {
    if |values| > 0 && v > values[0] {
      InsertSorts(v, values[1..], values[0]);
    }
  }

  function Insert(v: int, values: seq<int>): (r: seq<int>)
    ensures multiset(r) == multiset(values) + multiset{v}
  {
    if |values| == 0 || v <= values[0] then [v] + values
    else
      assert values == [values[0]] + values[1..];
      [values[0]] + Insert(v, values[1..])
  }

  /** Python's `sorted`. */
  function Sort(values: seq<int>): (r: seq<int>)
    ensures Sorted(r) && multiset(r) == multiset(values)
  {
    if |values| == 0 then []
    else
      assert values == [values[0]] + values[1..];
      var rest := Sort(values[1..]);
      InsertSorts(values[0], rest, if |rest| > 0 && rest[0] < values[0] then rest[0] else values[0]);
      Insert(values[0], rest)
  }

  /** Where the search begins: `min_value`, or the smallest value when that one is lower. */
  function Base(values: seq<int>, minValue: int): (base: int)
    ensures base <= minValue && (base == minValue || base in values)
    ensures forall v <- values :: base <= v
  {
    if |values| == 0 then minValue
    else
      assert values == [values[0]] + values[1..];
      var rest := Base(values[1..], minValue);
      if values[0] < rest then values[0] else rest
  }

  ghost function AtLeast(values: seq<int>, k: int): set<int> {
    set v | v in values && v >= k
  }

  /** The first number from `k` on that the list misses. */
  ghost function FirstMissing(values: seq<int>, k: int): (r: int)
    ensures r >= k && r !in values
    ensures forall j :: k <= j < r ==> j in values
    decreases |AtLeast(values, k)|
  {
    if k in values then
      assert AtLeast(values, k + 1) == AtLeast(values, k) - {k};
      FirstMissing(values, k + 1)
    else k
  }

  ghost function Lowest(values: seq<int>, minValue: int): int {
    FirstMissing(values, Base(values, minValue))
  }

  lemma {:induction false} FirstMissingIs(values: seq<int>, k: int, r: int)
    requires k <= r && r !in values && forall j :: k <= j < r ==> j in values
    ensures FirstMissing(values, k) == r
    decreases r - k
  {
    if k < r {
      FirstMissingIs(values, k + 1, r);
    }
  }

  /** The source's single pass over the sorted list finds that number, for every list and any `min_value`. */
  method FindLowestFreeValue(values: seq<int>, minValue: int) returns (ret: int)
    ensures ret == Lowest(values, minValue)
  {
    hide Base, Sort;
    var sorted := Sort(values);
    ret := minValue;
    var i := 0;
    while i < |sorted|
      invariant 0 <= i <= |sorted|
      invariant i == 0 ==> ret == minValue
      invariant i > 0 ==> sorted[0] <= minValue && ret == sorted[i - 1] + 1
      invariant i > 0 ==> forall j :: sorted[0] <= j < ret ==> j in sorted
    {
      if ret < sorted[i] {
        break;
      }
      ret := sorted[i] + 1;
      i := i + 1;
    }
    SamePlace(values, minValue, sorted, i, ret);
  }

  /** Where the pass stopped is the first number missing from the base on. */
  lemma SamePlace(values: seq<int>, minValue: int, sorted: seq<int>, i: nat, ret: int)
    requires Sorted(sorted) && multiset(sorted) == multiset(values) && i <= |sorted|
    requires i < |sorted| ==> ret < sorted[i]
    requires i == 0 ==> ret == minValue
    requires i > 0 ==> sorted[0] <= minValue && ret == sorted[i - 1] + 1
    requires i > 0 ==> forall j :: sorted[0] <= j < ret ==> j in sorted
    ensures ret == Lowest(values, minValue)
  {
    hide Base;
    var base := Base(values, minValue);
    forall v ensures v in values <==> v in sorted {
      assert v in values <==> v in multiset(values);
      assert v in sorted <==> v in multiset(sorted);
    }
    if |sorted| > 0 {
      assert forall k :: 0 <= k < |sorted| ==> sorted[0] <= sorted[k];
      assert sorted[0] in values;
    }
    assert base == if i == 0 then minValue else sorted[0];
    forall k | 0 <= k < |sorted| ensures sorted[k] != ret {
      assert k < i ==> sorted[k] <= sorted[i - 1];
      assert k >= i ==> sorted[i] <= sorted[k];
    }
    FirstMissingIs(values, base, ret);
  }

  /** When nothing lies below `min_value`, the result is the least missing number from there on. */
  lemma LowestFromMin(values: seq<int>, minValue: int)
    requires forall v <- values :: v >= minValue
    ensures var r := Lowest(values, minValue);
      r >= minValue && r !in values && forall j :: minValue <= j < r ==> j in values
  {
  }

  /** The result respects `min_value` exactly when there is no gap between a smaller value and it. */
  lemma RespectsMinIff(values: seq<int>, minValue: int)
    ensures Lowest(values, minValue) >= minValue <==>
      forall j :: Base(values, minValue) <= j < minValue ==> j in values
  {
    var r, base := Lowest(values, minValue), Base(values, minValue);
    if r < minValue {
      assert base <= r && r !in values;
    }
  }

  /** A single lower value with a gap behind it makes the search ignore `min_value`. */
  lemma IgnoresMin()
    ensures Lowest([5], 50000) == 6
  {
    assert Base([5], 50000) == 5;
    FirstMissingIs([5], 5, 6);
  }
}
