/** Subtracting purchases from a bandwidth profile. Times are microseconds. */
module Profiles {
  import opened Outcomes

  /** BW_PERIOD: 600 seconds. */
  const PERIOD: int := 600_000_000

  ghost predicate NonNegative(have: seq<int>) {
    forall t :: 0 <= t < |have| ==> have[t] >= 0
  }

  /** A purchase: how long after the start of the profile it begins, and its bandwidth per period. */
  datatype Buy = Buy(offset: int, want: seq<int>)

  /** What a purchase takes in period `t`, its profile padded with zeros on both sides. */
  function Demand(b: Buy, t: int): int {
    var k := b.offset / PERIOD;
    if k <= t < k + |b.want| then b.want[t - k] else 0
  }

  /** Aligned, inside a profile of `n` periods, never negative and not zero all over. */
  ghost predicate Admissible(n: nat, b: Buy) {
    && b.offset >= 0 && b.offset % PERIOD == 0
    && b.offset / PERIOD + |b.want| <= n
    && NonNegative(b.want)
    && exists i :: 0 <= i < |b.want| && b.want[i] > 0
  }

  ghost predicate Fits(have: seq<int>, b: Buy) {
    && Admissible(|have|, b)
    && forall i :: 0 <= i < |b.want| ==> b.want[i] <= have[b.offset / PERIOD + i]
  }

  ghost function Minus(have: seq<int>, b: Buy): seq<int> {
    seq(|have|, t requires 0 <= t < |have| => have[t] - Demand(b, t))
  }

  /** The profile left after a purchase, or None when the purchase is refused. */
  ghost function Sell(have: seq<int>, b: Buy): Option<seq<int>> {
    if Fits(have, b) then Some(Minus(have, b)) else None
  }

  function Sum(values: seq<int>): int {
    if |values| == 0 then 0 else Sum(values[..|values| - 1]) + values[|values| - 1]
  }

  lemma {:induction false} SumOfNonNegative(values: seq<int>)
    requires NonNegative(values)
    ensures Sum(values) >= 0
    ensures Sum(values) == 0 <==> forall i :: 0 <= i < |values| ==> values[i] == 0
  {
    if |values| > 0 {
      SumOfNonNegative(values[..|values| - 1]);
    }
  }

  /** The loop of `Offer.purchase` over the two profiles, replacing the slice at the end. */
  method SubtractProfile(have: seq<int>, offset: int, want: seq<int>) returns (r: Option<seq<int>>)
    ensures r == Sell(have, Buy(offset, want))
  {
    ghost var b := Buy(offset, want);
    if offset % PERIOD != 0 || offset < 0 {
      return None;
    }
    var k := offset / PERIOD;
    var window := if k <= |have| then have[k..] else [];
    if |want| > |window| {
      return None;
    }
    var left: seq<int> := [];
    var total := 0;
    for i := 0 to |want|
      invariant |left| == i
      invariant forall j :: 0 <= j < i ==> 0 <= want[j] <= window[j] && left[j] == window[j] - want[j]
      invariant total == Sum(want[..i])
    {
      if want[i] > window[i] || want[i] < 0 {
        return None;
      }
      left := left + [window[i] - want[i]];
      assert want[..i + 1][..i] == want[..i];
      total := total + want[i];
    }
    assert want[..|want|] == want;
    SumOfNonNegative(want);
    if total == 0 {
      return None;
    }
    var result := have[..k] + left + have[k + |left|..];
    assert result == Minus(have, b);
    return Some(result);
  }

  /** Purchases one after another, all or nothing. */
  ghost function SellAll(have: seq<int>, bs: seq<Buy>): Option<seq<int>>
    decreases |bs|
  {
    if |bs| == 0 then Some(have)
    else
      var left :- Sell(have, bs[0]);
      SellAll(left, bs[1..])
  }

  ghost function DemandSum(bs: seq<Buy>, t: int): int {
    if |bs| == 0 then 0 else Demand(bs[0], t) + DemandSum(bs[1..], t)
  }

  ghost predicate AllAdmissible(n: nat, bs: seq<Buy>) {
    forall i :: 0 <= i < |bs| ==> Admissible(n, bs[i])
  }

  ghost predicate Covers(have: seq<int>, bs: seq<Buy>) {
    forall t :: 0 <= t < |have| ==> DemandSum(bs, t) <= have[t]
  }

  lemma DemandBounds(n: nat, b: Buy, t: int)
    requires Admissible(n, b)
    ensures Demand(b, t) >= 0
  {
  }

  lemma {:induction false} DemandSumBounds(n: nat, bs: seq<Buy>, t: int)
    requires AllAdmissible(n, bs)
    ensures DemandSum(bs, t) >= 0
  {
    if |bs| > 0 {
      assert Admissible(n, bs[0]);
      DemandBounds(n, bs[0], t);
      assert forall i :: 0 <= i < |bs| - 1 ==> bs[1..][i] == bs[i + 1];
      DemandSumBounds(n, bs[1..], t);
    }
  }

  /** A purchase fits exactly when it is admissible and its demand is covered in every period. */
  lemma FitsPointwise(have: seq<int>, b: Buy)
    requires NonNegative(have)
    ensures Fits(have, b) <==> Admissible(|have|, b) && forall t :: 0 <= t < |have| ==> Demand(b, t) <= have[t]
    ensures Fits(have, b) ==> NonNegative(Minus(have, b))
  {
    if Admissible(|have|, b) && forall t :: 0 <= t < |have| ==> Demand(b, t) <= have[t] {
      var k := b.offset / PERIOD;
      forall i | 0 <= i < |b.want| ensures b.want[i] <= have[k + i] {
        assert Demand(b, k + i) == b.want[i];
      }
    }
  }

  ghost predicate LeftAfter(have: seq<int>, bs: seq<Buy>, left: seq<int>) {
    && |left| == |have| && NonNegative(left)
    && forall t :: 0 <= t < |have| ==> left[t] == have[t] - DemandSum(bs, t)
  }

  /**
   * A list of purchases all succeed in the given order exactly when each is admissible on its own and
   * their padded sum is covered; what is left is then the original minus that sum.
   */
  lemma {:induction false} SellAllIff(have: seq<int>, bs: seq<Buy>)
    requires NonNegative(have)
    ensures SellAll(have, bs).Some? <==> AllAdmissible(|have|, bs) && Covers(have, bs)
    ensures SellAll(have, bs).Some? ==> LeftAfter(have, bs, SellAll(have, bs).value)
    decreases |bs|
  {
    if |bs| > 0 {
      var b, rest := bs[0], bs[1..];
      FitsPointwise(have, b);
      assert AllAdmissible(|have|, bs) <==> Admissible(|have|, b) && AllAdmissible(|have|, rest) by {
        assert forall i :: 0 <= i < |rest| ==> rest[i] == bs[i + 1];
        assert forall i :: 0 < i < |bs| ==> bs[i] == rest[i - 1];
      }
      if AllAdmissible(|have|, bs) {
        forall t | 0 <= t < |have| ensures DemandSum(rest, t) >= 0 {
          DemandSumBounds(|have|, rest, t);
        }
        if Covers(have, bs) {
          assert forall t :: 0 <= t < |have| ==> Demand(b, t) <= DemandSum(bs, t) <= have[t];
          assert Fits(have, b);
        }
        if Fits(have, b) {
          var left := Minus(have, b);
          SellAllIff(left, rest);
          assert Covers(have, bs) <==> Covers(left, rest) by {
            assert forall t :: 0 <= t < |have| ==> left[t] == have[t] - Demand(b, t);
          }
        }
      } else if Fits(have, b) {
        SellAllIff(Minus(have, b), rest);
      }
    }
  }

  lemma {:induction false} DemandSumWithout(bs: seq<Buy>, i: nat, t: int)
    requires i < |bs|
    ensures DemandSum(bs, t) == Demand(bs[i], t) + DemandSum(bs[..i] + bs[i + 1..], t)
  {
    var without := bs[..i] + bs[i + 1..];
    if i == 0 {
      assert without == bs[1..];
    } else {
      assert bs[1..][..i - 1] + bs[1..][i..] == without[1..];
      DemandSumWithout(bs[1..], i - 1, t);
    }
  }

  /** Where the first element of one list stands in another one with the same elements. */
  lemma FirstIn<T>(bs: seq<T>, cs: seq<T>) returns (i: nat)
    requires |bs| > 0 && multiset(bs) == multiset(cs)
    ensures i < |cs| && cs[i] == bs[0] && multiset(bs[1..]) == multiset(cs[..i] + cs[i + 1..])
  {
    assert bs[0] in multiset(cs);
    i :| 0 <= i < |cs| && cs[i] == bs[0];
    TakenOut(bs, 0);
    assert bs[..0] + bs[1..] == bs[1..];
    TakenOut(cs, i);
  }

  lemma TakenOut<T>(s: seq<T>, i: nat)
    requires i < |s|
    ensures multiset(s[..i] + s[i + 1..]) == multiset(s) - multiset{s[i]}
  {
    assert s == s[..i] + [s[i]] + s[i + 1..];
  }

  lemma {:induction false} DemandSumPermutes(bs: seq<Buy>, cs: seq<Buy>, t: int)
    requires multiset(bs) == multiset(cs)
    ensures DemandSum(bs, t) == DemandSum(cs, t)
    decreases |bs|
  {
    assert |bs| == |multiset(bs)| == |multiset(cs)| == |cs|;
    if |bs| > 0 {
      hide Demand;
      var i := FirstIn(bs, cs);
      DemandSumWithout(cs, i, t);
      DemandSumPermutes(bs[1..], cs[..i] + cs[i + 1..], t);
    }
  }

  lemma AdmissiblePermutes(n: nat, bs: seq<Buy>, cs: seq<Buy>)
    requires multiset(bs) == multiset(cs) && AllAdmissible(n, bs)
    ensures AllAdmissible(n, cs)
  {
    forall i | 0 <= i < |cs| ensures Admissible(n, cs[i]) {
      assert cs[i] in multiset(bs);
      var j :| 0 <= j < |bs| && bs[j] == cs[i];
    }
  }

  /** Purchases in any other order succeed or fail together, and leave the same profile. */
  lemma OrderIndependence(have: seq<int>, bs: seq<Buy>, cs: seq<Buy>)
    requires NonNegative(have) && multiset(bs) == multiset(cs)
    ensures SellAll(have, bs) == SellAll(have, cs)
  {
    hide SellAll, DemandSum, Admissible;
    SellAllIff(have, bs);
    SellAllIff(have, cs);
    if AllAdmissible(|have|, bs) {
      AdmissiblePermutes(|have|, bs, cs);
    }
    if AllAdmissible(|have|, cs) {
      AdmissiblePermutes(|have|, cs, bs);
    }
    forall t | 0 <= t < |have| ensures DemandSum(bs, t) == DemandSum(cs, t) {
      DemandSumPermutes(bs, cs, t);
    }
    if SellAll(have, bs).Some? {
      assert SellAll(have, bs).value == SellAll(have, cs).value;
    }
  }
}
