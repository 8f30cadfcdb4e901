/** Exact real arithmetic for the dashboard: `Math.round`, sums, and largest-last apportionment. */
module Rounding {

  /** `Math.round`: to the nearest integer, halves upwards. */
  function Round(x: real): int {
    (x + 0.5).Floor
  }

  function Max0(x: int): nat {
    if x < 0 then 0 else x
  }

  function Sum(s: seq<int>): int {
    if s == [] then 0 else Sum(s[..|s| - 1]) + s[|s| - 1]
  }

  function RealSum(s: seq<real>): real {
    if s == [] then 0.0 else RealSum(s[..|s| - 1]) + s[|s| - 1]
  }

  lemma {:induction false} EqualSum(s: seq<int>, x: int)
    requires forall i | 0 <= i < |s| :: s[i] == x
    ensures Sum(s) == |s| * x
  {
    if s != [] { EqualSum(s[..|s| - 1], x); }
  }

  function RoundAll(q: seq<real>): (r: seq<int>)
    ensures |r| == |q| && forall i | 0 <= i < |q| :: r[i] == Round(q[i])
  {
    seq(|q|, i requires 0 <= i < |q| => Round(q[i]))
  }

  /**
    Rounds every quota and then repairs the total on the last row, which is kept
    from going below zero.
   */
  function Apportioned(total: int, q: seq<real>): (r: seq<int>)
    requires q != []
    ensures |r| == |q|
  {
    var rounded := RoundAll(q);
    var n := |q| - 1;
    rounded[n := Max0(rounded[n] + (total - Sum(rounded)))]
  }

  /** Quotas: non-negative shares of `total` that add up to it. */
  predicate AreQuotas(total: int, q: seq<real>) {
    q != [] && (forall i | 0 <= i < |q| :: q[i] >= 0.0) && RealSum(q) == total as real
  }

  function Distance(x: real, y: real): real {
    if x < y then y - x else x - y
  }

  /** The rows before the last, rounded; their sum is what the guard of the repair looks at. */
  function OthersSum(q: seq<real>): int
    requires q != []
  {
    Sum(RoundAll(q[..|q| - 1]))
  }

  lemma {:induction false} RoundedSumDrift(q: seq<real>)
    ensures Distance(Sum(RoundAll(q)) as real, RealSum(q)) <= |q| as real / 2.0
  {
    if q != [] {
      var before := q[..|q| - 1];
      RoundedSumDrift(before);
      assert RoundAll(q)[..|q| - 1] == RoundAll(before);
    }
  }

  lemma ApportionedSum(total: int, q: seq<real>)
    requires q != []
    ensures var r := Apportioned(total, q);
      && r[|q| - 1] == Max0(total - OthersSum(q))
      && Sum(r) == OthersSum(q) + r[|q| - 1]
      && forall i | 0 <= i < |q| - 1 :: r[i] == Round(q[i])
  {
    var r, n := Apportioned(total, q), |q| - 1;
    assert r[..n] == RoundAll(q[..n]) == RoundAll(q)[..n];
  }

  /**
    Every row is close to its exact quota: within one half, the last one within
    half the number of the others. The total is never short, and exceeds what was
    to be shared out by at most as much.
   */
  lemma ApportionBounds(total: int, q: seq<real>)
    requires AreQuotas(total, q)
    ensures var r, n := Apportioned(total, q), |q| - 1;
      && (forall i | 0 <= i < n :: 0 <= r[i] && Distance(r[i] as real, q[i]) <= 0.5)
      && 0 <= r[n] && Distance(r[n] as real, q[n]) <= n as real / 2.0
      && total <= Sum(r) && Sum(r) as real <= total as real + n as real / 2.0
  {
    var n := |q| - 1;
    ApportionedSum(total, q);
    RoundedSumDrift(q[..n]);
  }

  /**
    The repair makes the total exact if and only if the other rows did not
    already take more than there was, the guard of the clamp at zero.
   */
  lemma ApportionExactWhen(total: int, q: seq<real>)
    requires AreQuotas(total, q)
    ensures Sum(Apportioned(total, q)) == total <==> OthersSum(q) <= total
  {
    ApportionedSum(total, q);
  }

  /** In particular when the last quota is more than half the number of the others, less one. */
  lemma ApportionExactForLargeLast(total: int, q: seq<real>)
    requires AreQuotas(total, q) && q[|q| - 1] > (|q| - 3) as real / 2.0
    ensures Sum(Apportioned(total, q)) == total
  {
    ApportionedSum(total, q);
    RoundedSumDrift(q[..|q| - 1]);
  }

  lemma {:induction false} RealSumNonNegative(s: seq<real>)
    requires forall i | 0 <= i < |s| :: s[i] >= 0.0
    ensures RealSum(s) >= 0.0
    ensures forall i | 0 <= i < |s| :: s[i] <= RealSum(s)
  {
    if s != [] {
      var before := s[..|s| - 1];
      RealSumNonNegative(before);
      assert forall i | 0 <= i < |before| :: s[i] == before[i];
    }
  }

  // ----- products and quotients of reals -----

  lemma AddProducts(x: real, y: real, a: real)
    ensures (x + y) * a == x * a + y * a
  {
  }

  lemma SameProduct(x: real, y: real, a: real)
    requires x == y
    ensures x * a == y * a
  {
  }

  lemma DivideMultiply(x: real, y: real)
    requires y != 0.0
    ensures x / y * y == x
  {
  }

  lemma ProductNonNegative(x: real, y: real)
    requires x >= 0.0 && y >= 0.0
    ensures x * y >= 0.0
  {
  }

  lemma QuotientNonNegative(x: real, y: real)
    requires x >= 0.0 && y > 0.0
    ensures x / y >= 0.0
  {
  }

  lemma CancelFactor(x: real, y: real, a: real, b: real)
    requires a > 0.0 && a == y && x * a == y * b
    ensures x == b
  {
  }

  /** A quota of `total`, multiplied back by what its share was divided by. */
  lemma QuotaTerm(total: real, x: real, sum: real)
    requires sum > 0.0
    ensures total * (x / sum) * sum == x * total
  {
    DivideMultiply(x, sum);
    assert total * (x / sum) * sum == total * (x / sum * sum);
  }

  // ----- sums in proportion -----

  /** Term by term, `q` is to `s` as `b` is to `a`. */
  ghost predicate InProportion(q: seq<real>, a: real, s: seq<real>, b: real) {
    |q| == |s| && forall i | 0 <= i < |q| :: q[i] * a == s[i] * b
  }

  /** Terms in one proportion have sums in that proportion. */
  lemma {:induction false} SumsInProportion(q: seq<real>, a: real, s: seq<real>, b: real)
    requires InProportion(q, a, s, b)
    ensures RealSum(q) * a == RealSum(s) * b
  {
    if s != [] {
      var n := |s| - 1;
      SumsInProportion(q[..n], a, s[..n], b);
      AddProducts(RealSum(s[..n]), s[n], b);
      AddProducts(RealSum(q[..n]), q[n], a);
    }
  }

  lemma SumProducts(q: seq<real>, a: real, s: seq<real>, b: real) returns (x: real, y: real)
    requires InProportion(q, a, s, b)
    ensures x == RealSum(q) && y == RealSum(s) && x * a == y * b
  {
    SumsInProportion(q, a, s, b);
    x, y := RealSum(q), RealSum(s);
  }

  /** Parts of `total` in proportion to terms, relative to the sum of those terms, add up to `total`. */
  lemma PartsAddUp(q: seq<real>, s: seq<real>, total: real, sum: real)
    requires sum == RealSum(s) && sum > 0.0 && InProportion(q, sum, s, total)
    ensures RealSum(q) == total
  {
    var x, y := SumProducts(q, sum, s, total);
    CancelFactor(x, y, sum, total);
  }
}
