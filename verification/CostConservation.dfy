/**
  When the employee table of the cost bundle adds up exactly. The repair of the
  last row is clamped at zero, so apportionment can overshoot; the numbers built
  into the demo rule that out for rosters of up to 67 employees, and for no more.
 */
module CostConservation {
  import opened CodeUnits
  import opened Rounding
  import opened CostDemo

  const MAX_ROSTER: nat := 67

  // ----- a lower bound on the units of the series -----

  /** The part of a bucket's units that does not vary, for the least noise. */
  function Rate(range: Range): real {
    match range
    case Day => 8.0 * 0.8 * 1.05 * 0.45
    case Week => 110.0 * 0.8 * 1.18 * 0.45
    case Month => 95.0 * 0.8 * 1.22 * 0.45
  }

  /** The shape of bucket `i` for the least draw. */
  function MinShape(range: Range, i: nat): real {
    Shape(range, i, 0.0)
  }

  /**
    The least bucket `i` comes to before rounding, for an org of weight `w`: the
    constant part of the units times the bucket's least shape.
   */
  function FloorOf(range: Range, i: nat, w: real): real {
    match range
    case Day =>
      if i < 7 || i > 21 then 0.6048 * w else if 9 <= i <= 18 then 3.6288 * w else 1.8144 * w
    case Week =>
      if i >= 5 then 14.0184 * w else 49.0644 * w
    case Month =>
      if i % 7 == 3 || i % 7 == 4 then 16.6896 * w else 41.724 * w
  }

  /** The least the first `k` buckets come to before rounding. */
  function FloorUpTo(range: Range, k: nat, w: real): real
    decreases k
  {
    if k == 0 then 0.0 else FloorUpTo(range, k - 1, w) + FloorOf(range, k - 1, w)
  }

  lemma ProductFloor(w: real, shape: real, noise: real, m: real)
    requires w >= 0.0 && shape >= m >= 0.0 && noise >= 0.8
    ensures w * shape * noise >= w * m * 0.8
  {
    assert w * shape >= w * m by { assert w * (shape - m) >= 0.0; }
    assert w * shape * noise >= w * shape * 0.8 by { assert w * shape * (noise - 0.8) >= 0.0; }
  }

  lemma Reorder(b: real, w: real, shape: real, noise: real, o: real)
    ensures b * w * shape * noise * o * 0.45 == b * o * 0.45 * (w * shape * noise)
  {
  }

  lemma FloorIsRateTimesShape(range: Range, i: nat, w: real)
    ensures FloorOf(range, i, w) == Rate(range) * (w * MinShape(range, i))
  {
    assert (i + 2) % 7 == 5 || (i + 2) % 7 == 6 <==> i % 7 == 3 || i % 7 == 4;
  }

  lemma EstimateAtLeast(range: Range, w: real, shape: real, noise: real, least: real)
    requires w >= 0.0 && shape >= least >= 0.0 && noise >= 0.8
    ensures Estimate(range, w, shape, noise) >= Rate(range) * (w * least)
  {
    ProductFloor(w, shape, noise, least);
    Reorder(BaseUnits(range), w, shape, noise, Overshoot(range));
  }

  lemma BucketRate(range: Range, i: nat, w: real, d: Draws)
    requires w >= 0.0
    ensures BucketUnits(range, i, w, d) as real >= Rate(range) * (w * MinShape(range, i)) - 0.5
  {
    EstimateAtLeast(range, w, Shape(range, i, d.shape(i)), NoiseFactor(d.noise(i)), MinShape(range, i));
  }

  lemma BucketFloor(range: Range, i: nat, w: real, d: Draws)
    requires w >= 0.0
    ensures BucketUnits(range, i, w, d) as real >= FloorOf(range, i, w) - 0.5
  {
    BucketRate(range, i, w, d);
    FloorIsRateTimesShape(range, i, w);
  }

  lemma {:induction false} UnitsFloor(range: Range, k: nat, w: real, d: Draws)
    requires w >= 0.0
    ensures UnitsUpTo(range, k, w, d) as real >= FloorUpTo(range, k, w) - k as real * 0.5
  {
    if k > 0 {
      UnitsFloor(range, k - 1, w, d);
      BucketFloor(range, k - 1, w, d);
    }
  }

  lemma DayFloor(w: real)
    ensures FloorUpTo(Day, 24, w) == 50.8032 * w
  {
    assert FloorUpTo(Day, 7, w) == 4.2336 * w;
    assert FloorUpTo(Day, 14, w) == 26.0064 * w;
    assert FloorUpTo(Day, 19, w) == 44.1504 * w;
  }

  lemma WeekFloor(w: real)
    ensures FloorUpTo(Week, 7, w) == 273.3588 * w
  {
  }

  lemma MonthFloor(w: real)
    ensures FloorUpTo(Month, 30, w) == 1051.4448 * w
  {
    assert FloorUpTo(Month, 7, w) == 241.9992 * w;
    assert FloorUpTo(Month, 14, w) == 483.9984 * w;
    assert FloorUpTo(Month, 21, w) == 725.9976 * w;
    assert FloorUpTo(Month, 28, w) == 967.9968 * w;
  }

  /** Units per unit of org weight, and what rounding can take away. */
  function Slope(range: Range): real {
    match range case Day => 50.8032 case Week => 273.3588 case Month => 1051.4448
  }

  function Loss(range: Range): real {
    match range case Day => 12.0 case Week => 3.5 case Month => 15.0
  }

  lemma UsedFloor(range: Range, w: real, d: Draws)
    requires w >= 0.0
    ensures UnitsUpTo(range, Buckets(range), w, d) as real >= Slope(range) * w - Loss(range)
  {
    UnitsFloor(range, Buckets(range), w, d);
    match range {
      case Day => DayFloor(w);
      case Week => WeekFloor(w);
      case Month => MonthFloor(w);
    }
  }

  // ----- bounds on the weights and on the last share -----

  lemma Distribute(w: real, a: real, b: real)
    ensures w * (a + b) == w * a + w * b
  {
  }

  lemma {:induction false} SumBetween(s: seq<real>, lo: real, hi: real)
    requires forall i | 0 <= i < |s| :: lo <= s[i] <= hi
    ensures lo * |s| as real <= RealSum(s) <= hi * |s| as real
  {
    if s != [] {
      SumBetween(s[..|s| - 1], lo, hi);
      Distribute(lo, (|s| - 1) as real, 1.0);
      Distribute(hi, (|s| - 1) as real, 1.0);
    }
  }

  lemma {:induction false} SumDominated(s: seq<real>, t: seq<real>, a: real, b: real)
    requires |s| == |t| && forall i | 0 <= i < |s| :: s[i] * a <= b * t[i]
    ensures RealSum(s) * a <= b * RealSum(t)
  {
    if s != [] {
      var n := |s| - 1;
      SumDominated(s[..n], t[..n], a, b);
      AddProducts(RealSum(s[..n]), s[n], a);
      Distribute(b, RealSum(t[..n]), t[n]);
    }
  }

  lemma SeedWeights(roster: seq<Text>, d: Draws)
    ensures var seeds := Seeds(roster, d);
      && (roster != [] ==> forall i | 0 <= i < |seeds| :: 0.75 <= seeds[i].weight <= 1.35)
      && (roster == [] ==> Weights(seeds) == FALLBACK && OrgWeight(seeds) == 2.85)
      && AllPositive(Weights(seeds))
      && OrgWeight(seeds) == RealSum(Weights(seeds)) > 0.0
  {
    var w := Weights(Seeds(roster, d));
    PositiveSum(w);
    if roster == [] {
      assert w == FALLBACK && w[..2] == [1.2, 0.95] && w[..2][..1] == [1.2] && w[..1][..0] == [];
      assert RealSum([1.2]) == 1.2;
      assert RealSum([1.2, 0.95]) == 2.15;
    }
  }

  lemma SwapFactors(x: real, f: real, t: real)
    ensures x * f * t == x * t * f
  {
  }

  /** A factor between 0.92 and 1.08 moves a positive weight by that much at most. */
  lemma FactorBounds(w: real, f: real)
    requires w > 0.0 && 0.92 <= f <= 1.08
    ensures 0.92 * w <= w * f <= 1.08 * w
  {
    MulLeft(0.92, f, w);
    MulLeft(f, 1.08, w);
  }

  /** `part` is the weight over the total; a factor near one keeps the product near the weight. */
  lemma RawShareBounds(part: real, w: real, total: real, f: real)
    requires part > 0.0 && w > 0.0 && 0.92 <= f <= 1.08
    requires part * total == w
    ensures part * f > 0.0
    ensures 0.92 * w <= part * f * total <= 1.08 * w
  {
    ProductPositive(part, f);
    SwapFactors(part, f, total);
    SameProduct(part * total, w, f);
    assert part * f * total == w * f;
    FactorBounds(w, f);
    assert w * f <= 1.08 * w;
    assert part * f * total <= 1.08 * w;
  }

  lemma QuotientPositive(x: real, y: real)
    requires x > 0.0 && y > 0.0
    ensures x / y > 0.0
  {
  }

  lemma ProductPositive(x: real, y: real)
    requires x > 0.0 && y > 0.0
    ensures x * y > 0.0
  {
  }

  lemma RawShareIs(seeds: seq<Seed>, d: Draws, total: real, i: nat)
    requires i < |seeds| && total > 0.0
    ensures RawSharesOver(seeds, d, total)[i] == seeds[i].weight / total * ShareFactor(d.share(i))
  {
  }

  lemma RawShareAt(seeds: seq<Seed>, d: Draws, total: real, i: nat)
    requires i < |seeds| && seeds[i].weight > 0.0 && total > 0.0
    ensures var raw := RawSharesOver(seeds, d, total)[i];
      raw > 0.0 && 0.92 * seeds[i].weight <= raw * total <= 1.08 * seeds[i].weight
  {
    var w, f := seeds[i].weight, ShareFactor(d.share(i));
    QuotientPositive(w, total);
    DivideMultiply(w, total);
    RawShareBounds(w / total, w, total, f);
    RawShareIs(seeds, d, total, i);
    SameProduct(RawSharesOver(seeds, d, total)[i], w / total * f, total);
  }

  lemma SumWithinWeights(raw: seq<real>, w: seq<real>, total: real)
    requires |raw| == |w| && total == RealSum(w) && total > 0.0
    requires forall i | 0 <= i < |raw| :: raw[i] * total <= 1.08 * w[i]
    ensures RealSum(raw) <= 1.08
  {
    SumDominated(raw, w, total, 1.08);
    CancelBound(RealSum(raw), 1.08, total);
  }

  /** The raw shares are positive and sum to at most 1.08. */
  lemma RawSum(seeds: seq<Seed>, d: Draws, total: real)
    requires AllPositive(Weights(seeds)) && total == RealSum(Weights(seeds)) && total > 0.0
    ensures AllPositive(RawSharesOver(seeds, d, total))
    ensures 0.0 < RealSum(RawSharesOver(seeds, d, total)) <= 1.08
  {
    var raw := RawSharesOver(seeds, d, total);
    forall i | 0 <= i < |seeds|
      ensures raw[i] > 0.0 && raw[i] * total <= 1.08 * Weights(seeds)[i]
    {
      assert Weights(seeds)[i] == seeds[i].weight;
      RawShareAt(seeds, d, total, i);
    }
    PositiveSum(raw);
    SumWithinWeights(raw, Weights(seeds), total);
  }

  lemma CancelBound(x: real, y: real, a: real)
    requires a > 0.0 && x * a <= y * a
    ensures x <= y
  {
    if x > y { ProductPositive(x - y, a); }
  }

  lemma MulLeft(x: real, y: real, a: real)
    requires x <= y && a >= 0.0
    ensures x * a <= y * a
  {
    ProductNonNegative(y - x, a);
  }

  /** From `q` the normalised quota of a row with raw share `raw`: a bound free of divisions. */
  lemma QuotaFloor(total: real, q: real, raw: real, sum: real, w: real, orgWeight: real)
    requires total >= 0.0 && q >= 0.0 && orgWeight > 0.0
    requires q * sum == raw * total && sum <= 1.08
    requires raw * orgWeight >= 0.92 * w
    ensures q * 1.08 * orgWeight >= 0.92 * w * total
  {
    MulLeft(sum, 1.08, q);
    MulLeft(q * sum, q * 1.08, orgWeight);
    assert raw * total * orgWeight == raw * orgWeight * total;
    MulLeft(0.92 * w, raw * orgWeight, total);
  }

  /** The last row's quota is more than `half` when the total is large for the roster's weight. */
  lemma QuotaReaches(total: real, q: real, w: real, orgWeight: real, half: real)
    requires orgWeight > 0.0
    requires q * 1.08 * orgWeight >= 0.92 * w * total
    requires 0.92 * w * total > 1.08 * half * orgWeight
    ensures q > half
  {
    assert q * 1.08 * orgWeight == q * (1.08 * orgWeight);
    assert 1.08 * half * orgWeight == half * (1.08 * orgWeight);
    if q <= half { MulLeft(q, half, 1.08 * orgWeight); }
  }

  /** The last quota of the table, from the bounds on its raw share. */
  lemma LastQuota(total: nat, raw: seq<real>, sum: real, n: nat, w: real, orgWeight: real, half: real)
    requires n < |raw| && raw[n] > 0.0 && 0.0 < sum <= 1.08 && orgWeight > 0.0
    requires 0.92 * w <= raw[n] * orgWeight
    requires 0.92 * w * total as real > 1.08 * half * orgWeight
    ensures Scaled(total, Divided(raw, sum))[n] > half
  {
    var q := Scaled(total, Divided(raw, sum))[n];
    ShareTerm(total, raw, sum, n);
    QuotaFloor(total as real, q, raw[n], sum, w, orgWeight);
    QuotaReaches(total as real, q, w, orgWeight, half);
  }

  lemma SharesOverSum(seeds: seq<Seed>, d: Draws)
    requires AllPositive(Weights(seeds)) && RealSum(Weights(seeds)) > 0.0
    requires RealSum(RawSharesOver(seeds, d, RealSum(Weights(seeds)))) > 0.0
    ensures var raw := RawSharesOver(seeds, d, RealSum(Weights(seeds)));
      RawShares(seeds, d) == raw && Shares(RawShares(seeds, d)) == Divided(raw, RealSum(raw))
  {
  }

  /** When the total is large enough for the roster, the repaired table adds up exactly. */
  lemma TableExact(seeds: seq<Seed>, d: Draws, total: nat)
    requires seeds != [] && AllPositive(Weights(seeds)) && RealSum(Weights(seeds)) > 0.0
    requires 0.92 * seeds[|seeds| - 1].weight * total as real
           > 1.08 * ((|seeds| - 3) as real / 2.0) * RealSum(Weights(seeds))
    ensures Sum(Apportioned(total, Scaled(total, Shares(RawShares(seeds, d))))) == total
  {
    var orgWeight, n := RealSum(Weights(seeds)), |seeds| - 1;
    RawSum(seeds, d, orgWeight);
    SharesOverSum(seeds, d);
    assert Weights(seeds)[n] == seeds[n].weight;
    RawShareAt(seeds, d, orgWeight, n);
    LastQuota(total, RawSharesOver(seeds, d, orgWeight), RealSum(RawSharesOver(seeds, d, orgWeight)), n,
              seeds[n].weight, orgWeight, (|seeds| - 3) as real / 2.0);
    SharesAreQuotas(total, RawShares(seeds, d));
    ApportionExactForLargeLast(total, Scaled(total, Shares(RawShares(seeds, d))));
  }

  /** Nothing to share out: every row gets nothing. */
  lemma ZeroTableExact(s: seq<real>)
    requires s != []
    ensures Sum(Apportioned(0, Scaled(0, s))) == 0
  {
    var q := Scaled(0, s);
    forall i | 0 <= i < |q|
      ensures q[i] == 0.0
    {
    }
    EqualSum(RoundAll(q[..|q| - 1]), 0);
    ApportionedSum(0, q);
  }

  // ----- the numbers of the demo -----

  lemma EnoughFrom(w: real, total: real, half: real, orgWeight: real, most: real)
    requires w >= 0.75 && total >= 0.0 && orgWeight > 0.0 && half <= most
    requires 0.69 * total > 1.08 * (most * orgWeight)
    ensures 0.92 * w * total > 1.08 * half * orgWeight
  {
    MulLeft(0.69, 0.92 * w, total);
    MulLeft(half, most, orgWeight);
    assert 1.08 * half * orgWeight == 1.08 * (half * orgWeight);
  }

  lemma UnitsAreEnough(range: Range, n: nat, w: real, orgWeight: real, used: nat)
    requires 1 <= n <= MAX_ROSTER && w >= 0.75 && orgWeight >= 0.75 * n as real
    requires used as real >= Slope(range) * orgWeight - Loss(range)
    ensures 0.92 * w * used as real > 1.08 * ((n - 3) as real / 2.0) * orgWeight
  {
    EnoughFrom(w, used as real, (n - 3) as real / 2.0, orgWeight, if n <= 23 then 10.0 else 32.0);
  }

  lemma YenIsEnough(range: Range, n: nat, w: real, orgWeight: real, used: nat, yen: nat)
    requires 4 <= n <= MAX_ROSTER && w >= 0.75 && orgWeight >= 0.75 * n as real
    requires used as real >= Slope(range) * orgWeight - Loss(range)
    requires yen == OverageYen(range, used)
    ensures 0.92 * w * yen as real > 1.08 * ((n - 3) as real / 2.0) * orgWeight
  {
    EnoughFrom(w, yen as real, (n - 3) as real / 2.0, orgWeight, 32.0);
  }

  lemma FewAreEnough(n: nat, w: real, orgWeight: real, total: nat)
    requires 1 <= n <= 3 && w >= 0.7 && orgWeight > 0.0 && total > 0
    ensures 0.92 * w * total as real > 1.08 * ((n - 3) as real / 2.0) * orgWeight
  {
    MulLeft(0.644, 0.92 * w, total as real);
    MulLeft((n - 3) as real / 2.0, 0.0, orgWeight);
    assert 1.08 * ((n - 3) as real / 2.0) * orgWeight == 1.08 * ((n - 3) as real / 2.0 * orgWeight);
  }

  /** The weights of a roster that was given: the total is at least this multiple. */
  lemma RosterWeight(roster: seq<Text>, d: Draws)
    requires roster != []
    ensures var seeds := Seeds(roster, d);
      seeds[|seeds| - 1].weight >= 0.75 && RealSum(Weights(seeds)) >= 0.75 * |seeds| as real
  {
    SeedWeights(roster, d);
    SumBetween(Weights(Seeds(roster, d)), 0.75, 1.35);
  }

  /** The sample employees shown for an empty roster. */
  lemma FallbackIsEnough(roster: seq<Text>, d: Draws, total: nat)
    requires roster == [] && total > 0
    ensures var seeds := Seeds(roster, d);
      0.92 * seeds[|seeds| - 1].weight * total as real
      > 1.08 * ((|seeds| - 3) as real / 2.0) * RealSum(Weights(seeds))
  {
    SeedWeights(roster, d);
    var seeds := Seeds(roster, d);
    assert Weights(seeds)[2] == seeds[2].weight == 0.7;
    FewAreEnough(3, 0.7, RealSum(Weights(seeds)), total);
  }

  /** The yen of the overage of `used` units. */
  function OverageYen(range: Range, used: nat): nat {
    Max0(used - Included(range)) * YEN_PER_UNIT
  }

  /**
    For every range, every roster of up to 67 employees and all draws, the units
    and the yen of the employee table add up exactly to the headline figures.
   */
  lemma {:induction false} TableConserves(range: Range, roster: seq<Text>, d: Draws)
    requires |roster| <= MAX_ROSTER
    ensures var seeds := Seeds(roster, d);
      var used := UnitsUpTo(range, Buckets(range), OrgWeight(seeds), d);
      var yen := OverageYen(range, used);
      forall rows | IsTable(seeds, d, used, yen, rows) :: Sum(RowUnits(rows)) == used && Sum(RowYen(rows)) == yen
  {
    var seeds := Seeds(roster, d);
    SeedWeights(roster, d);
    var used := UnitsUpTo(range, Buckets(range), OrgWeight(seeds), d);
    UsedFloor(range, RealSum(Weights(seeds)), d);
    UnitsConserved(range, roster, d, used);
    YenConserved(range, roster, d, used, OverageYen(range, used));
  }

  lemma UnitsConserved(range: Range, roster: seq<Text>, d: Draws, used: nat)
    requires |roster| <= MAX_ROSTER
    requires used as real >= Slope(range) * RealSum(Weights(Seeds(roster, d))) - Loss(range)
    ensures var seeds := Seeds(roster, d);
      Sum(Apportioned(used, Scaled(used, Shares(RawShares(seeds, d))))) == used
  {
    var seeds := Seeds(roster, d);
    SeedWeights(roster, d);
    if roster == [] {
      FallbackIsEnough(roster, d, used);
    } else {
      RosterWeight(roster, d);
      UnitsAreEnough(range, |seeds|, seeds[|seeds| - 1].weight, RealSum(Weights(seeds)), used);
    }
    TableExact(seeds, d, used);
  }

  /** An overage of at least one unit is enough yen for any roster that pays it. */
  lemma YenReaches(range: Range, roster: seq<Text>, d: Draws, used: nat, yen: nat)
    requires 0 < |roster| <= MAX_ROSTER && yen > 0 && yen == OverageYen(range, used)
    requires used as real >= Slope(range) * RealSum(Weights(Seeds(roster, d))) - Loss(range)
    ensures var seeds := Seeds(roster, d);
      0.92 * seeds[|seeds| - 1].weight * yen as real
      > 1.08 * ((|seeds| - 3) as real / 2.0) * RealSum(Weights(seeds))
  {
    RosterWeight(roster, d);
    var seeds := Seeds(roster, d);
    var w, orgWeight := seeds[|seeds| - 1].weight, RealSum(Weights(seeds));
    if |seeds| <= 3 {
      FewAreEnough(|seeds|, w, orgWeight, yen);
    } else {
      YenIsEnough(range, |seeds|, w, orgWeight, used, yen);
    }
  }

  lemma YenConserved(range: Range, roster: seq<Text>, d: Draws, used: nat, yen: nat)
    requires |roster| <= MAX_ROSTER
    requires used as real >= Slope(range) * RealSum(Weights(Seeds(roster, d))) - Loss(range)
    requires yen == OverageYen(range, used)
    ensures var seeds := Seeds(roster, d);
      Sum(Apportioned(yen, Scaled(yen, Shares(RawShares(seeds, d))))) == yen
  {
    var seeds := Seeds(roster, d);
    SeedWeights(roster, d);
    if yen == 0 {
      ZeroTableExact(Shares(RawShares(seeds, d)));
    } else {
      if roster == [] {
        FallbackIsEnough(roster, d, yen);
      } else {
        YenReaches(range, roster, d, used, yen);
      }
      TableExact(seeds, d, yen);
    }
  }

  /** What draws an employee's part of the figures to it: its weight, times the factor of its share. */
  function Pull(roster: seq<Text>, d: Draws, i: nat): real
    requires roster == [] ==> i < 3
  {
    (if roster == [] then [1.2, 0.95, 0.7][i] else 0.75 + d.weight(i) * 0.6) * (0.92 + d.share(i) * 0.16)
  }

  function Pulls(roster: seq<Text>, d: Draws): (r: seq<real>)
    ensures |r| == if roster == [] then 3 else |roster|
  {
    var n := if roster == [] then 3 else |roster|;
    seq(n, i requires 0 <= i < n => Pull(roster, d, i))
  }

  lemma RawSharePulls(roster: seq<Text>, d: Draws, total: real, i: nat)
    requires i < |Pulls(roster, d)| && total > 0.0
    ensures RawSharesOver(Seeds(roster, d), d, total)[i] * total == Pulls(roster, d)[i]
  {
    var seeds, f := Seeds(roster, d), ShareFactor(d.share(i));
    RawShareIs(seeds, d, total, i);
    SwapFactors(seeds[i].weight / total, f, total);
    DivideMultiply(seeds[i].weight, total);
    assert Pull(roster, d, i) == seeds[i].weight * f;
  }

  lemma SharePulls(share: real, raw: real, pull: real, rawSum: real, pullSum: real, total: real)
    requires share * rawSum == raw && raw * total == pull && rawSum * total == pullSum
    ensures share * pullSum == pull
  {
    assert share * (rawSum * total) == share * rawSum * total;
  }

  lemma RawSharesPull(roster: seq<Text>, d: Draws, total: real)
    requires total > 0.0
    ensures InProportion(RawSharesOver(Seeds(roster, d), d, total), total, Pulls(roster, d), 1.0)
  {
    forall i: nat | i < |Pulls(roster, d)|
      ensures RawSharesOver(Seeds(roster, d), d, total)[i] * total == Pulls(roster, d)[i] * 1.0
    {
      RawSharePulls(roster, d, total, i);
    }
  }

  lemma DividedAt(raw: seq<real>, sum: real, i: nat)
    requires i < |raw| && sum > 0.0
    ensures Divided(raw, sum)[i] * sum == raw[i]
  {
    DivideMultiply(raw[i], sum);
  }

  lemma ProportionAt(raw: seq<real>, total: real, pulls: seq<real>, i: nat) returns (r: real, p: real)
    requires InProportion(raw, total, pulls, 1.0) && i < |raw|
    ensures r == raw[i] && p == pulls[i] && r * total == p
  {
    r, p := raw[i], pulls[i];
  }

  /** A raw share and its pull, and their sums, as numbers. */
  lemma PullFacts(roster: seq<Text>, d: Draws, total: real, i: nat) returns (r: real, p: real, x: real, y: real)
    requires total > 0.0 && i < |Pulls(roster, d)|
    ensures r == RawSharesOver(Seeds(roster, d), d, total)[i] && p == Pulls(roster, d)[i]
    ensures x == RealSum(RawSharesOver(Seeds(roster, d), d, total)) && y == RealSum(Pulls(roster, d))
    ensures r * total == p && x * total == y
  {
    RawSharesPull(roster, d, total);
    r, p := ProportionAt(RawSharesOver(Seeds(roster, d), d, total), total, Pulls(roster, d), i);
    x, y := SumProducts(RawSharesOver(Seeds(roster, d), d, total), total, Pulls(roster, d), 1.0);
  }

  lemma ShareTimesSum(raw: seq<real>, i: nat) returns (s: real)
    requires RealSum(raw) > 0.0 && i < |raw|
    ensures s == Shares(raw)[i] && s * RealSum(raw) == raw[i]
  {
    assert Shares(raw) == Divided(raw, RealSum(raw));
    s := Divided(raw, RealSum(raw))[i];
    DividedAt(raw, RealSum(raw), i);
  }

  /** The total weight of the seeds, and the raw shares over it. */
  lemma RawSharesAre(roster: seq<Text>, d: Draws) returns (total: real, raw: seq<real>)
    ensures total > 0.0 && raw == RawSharesOver(Seeds(roster, d), d, total) == RawShares(Seeds(roster, d), d)
    ensures RealSum(raw) > 0.0
  {
    var seeds := Seeds(roster, d);
    total := RealSum(Weights(seeds));
    SeedWeights(roster, d);
    RawSum(seeds, d, total);
    SharesOverSum(seeds, d);
    raw := RawSharesOver(seeds, d, total);
  }

  /** An employee's share is its pull over those of all: the weight of the org cancels out. */
  lemma SharesByPull(roster: seq<Text>, d: Draws, i: nat) returns (share: real, pull: real, all: real)
    requires i < |Pulls(roster, d)|
    ensures share == Shares(RawShares(Seeds(roster, d), d))[i]
    ensures pull == Pulls(roster, d)[i] && all == RealSum(Pulls(roster, d))
    ensures share * all == pull
  {
    var total, raw := RawSharesAre(roster, d);
    var r, p, x, y := PullFacts(roster, d, total, i);
    share := ShareTimesSum(raw, i);
    pull, all := p, y;
    SharePulls(share, r, p, x, y, total);
  }

  /**
    For rosters of any size: a total of the table is exact if and only if the rows
    before the last did not take more than there was.
   */
  lemma {:induction false} TableExactWhen(roster: seq<Text>, d: Draws, used: nat, yen: nat, rows: seq<CostRow>)
    requires IsTable(Seeds(roster, d), d, used, yen, rows)
    ensures Sum(RowUnits(rows)) == used <==> Sum(RowUnits(rows)[..|rows| - 1]) <= used
    ensures Sum(RowYen(rows)) == yen <==> Sum(RowYen(rows)[..|rows| - 1]) <= yen
  {
    var seeds, n := Seeds(roster, d), |rows| - 1;
    SeedWeights(roster, d);
    RawSum(seeds, d, RealSum(Weights(seeds)));
    SharesAreQuotas(used, RawShares(seeds, d));
    SharesAreQuotas(yen, RawShares(seeds, d));
    OthersUnchanged(used, Scaled(used, RowShares(rows)));
    OthersUnchanged(yen, Scaled(yen, RowShares(rows)));
    ApportionExactWhen(used, Scaled(used, RowShares(rows)));
    ApportionExactWhen(yen, Scaled(yen, RowShares(rows)));
  }

  /** The repair leaves the rows before the last as they were rounded. */
  lemma OthersUnchanged(total: nat, q: seq<real>)
    requires q != []
    ensures Sum(Apportioned(total, q)[..|q| - 1]) == OthersSum(q)
  {
    ApportionedSum(total, q);
    assert Apportioned(total, q)[..|q| - 1] == RoundAll(q[..|q| - 1]);
  }

  /**
    For rosters of any size: every row but the last is within one half of its exact
    part of units and yen, the last within half the number of the others, and a
    total can only come out too high, by no more than that.
   */
  lemma {:induction false} TableIsFair(roster: seq<Text>, d: Draws, used: nat, yen: nat, rows: seq<CostRow>)
    requires IsTable(Seeds(roster, d), d, used, yen, rows)
    ensures IsFair(used, RowShares(rows), RowUnits(rows)) && IsFair(yen, RowShares(rows), RowYen(rows))
  {
    var seeds := Seeds(roster, d);
    SeedWeights(roster, d);
    RawSum(seeds, d, RealSum(Weights(seeds)));
    SharesAreQuotas(used, RawShares(seeds, d));
    SharesAreQuotas(yen, RawShares(seeds, d));
    ApportionBounds(used, Scaled(used, RowShares(rows)));
    ApportionBounds(yen, Scaled(yen, RowShares(rows)));
  }

  /** `r` shares out `total` by `shares` up to rounding and the repair of the last row. */
  ghost predicate IsFair(total: nat, shares: seq<real>, r: seq<int>)
    requires |r| == |shares| > 0
  {
    var q, n := Scaled(total, shares), |r| - 1;
    && (forall i | 0 <= i < n :: 0 <= r[i] && Distance(r[i] as real, q[i]) <= 0.5)
    && 0 <= r[n] && Distance(r[n] as real, q[n]) <= n as real / 2.0
    && total <= Sum(r) && Sum(r) as real <= total as real + n as real / 2.0
  }
}
