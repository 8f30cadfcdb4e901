/**
  Overshoot of the employee table when the noise and the shape of the buckets are
  given: they depend on the range alone, weights and shares on the roster. Every
  roster that is large for the units of its range can have its shares drawn so
  that each row but the last is a half above a whole number.
 */
module CostFixedNoise {
  import opened CodeUnits
  import opened Rounding
  import opened CostDemo
  import opened CostConservation

  // ----- quotas that all end in a half -----

  /**
    How `total` units are shared out to `n` employees: `more` of the rows before the
    last are due `low` and one half plus one, the others `low` and one half, and the
    last row what is left.
   */
  datatype Split = Split(n: nat, low: nat, more: nat, last: real)

  predicate IsSplit(p: Split, total: nat) {
    && p.n > 1 && p.low >= 10 && p.more < p.n
    && (p.last == p.low as real + 0.5 || p.last == p.low as real + 1.0)
    && (p.low * (p.n - 1) + p.more) as real + (p.n - 1) as real / 2.0 + p.last == total as real
  }

  function QuotaAt(p: Split, i: nat): real {
    if i >= p.n - 1 then p.last else p.low as real + if i < p.more then 1.5 else 0.5
  }

  function Quotas(p: Split): (q: seq<real>)
    ensures |q| == p.n
  {
    seq(p.n, i requires 0 <= i < p.n => QuotaAt(p, i))
  }

  function AtMost(x: nat, most: nat): nat {
    if x < most then x else most
  }

  lemma {:induction false} QuotasUpTo(p: Split, k: nat)
    requires p.n > 0 && k <= p.n - 1
    ensures RealSum(Quotas(p)[..k]) == (p.low * k + AtMost(k, p.more)) as real + k as real / 2.0
  {
    if k > 0 {
      QuotasUpTo(p, k - 1);
      assert Quotas(p)[..k][..k - 1] == Quotas(p)[..k - 1];
      assert p.low * k == p.low * (k - 1) + p.low;
    }
  }

  lemma QuotasAddUp(p: Split, total: nat)
    requires IsSplit(p, total)
    ensures RealSum(Quotas(p)) == total as real
  {
    QuotasUpTo(p, p.n - 1);
  }

  lemma {:induction false} HalvesRoundUp(s: seq<real>)
    requires forall i | 0 <= i < |s| :: Round(s[i]) as real == s[i] + 0.5
    ensures Sum(RoundAll(s)) as real == RealSum(s) + |s| as real / 2.0
  {
    if s != [] {
      HalvesRoundUp(s[..|s| - 1]);
      assert RoundAll(s)[..|s| - 1] == RoundAll(s[..|s| - 1]);
    }
  }

  lemma RoundHalf(m: int)
    ensures Round(m as real + 0.5) == m + 1
  {
    assert m as real + 0.5 + 0.5 == (m + 1) as real;
  }

  lemma HalfRoundsUp(p: Split, i: nat)
    requires i < p.n - 1
    ensures Round(QuotaAt(p, i)) as real == QuotaAt(p, i) + 0.5
  {
    var m := if i < p.more then p.low + 1 else p.low;
    assert QuotaAt(p, i) == m as real + 0.5;
    RoundHalf(m);
  }

  lemma HalvesOf(p: Split, k: nat)
    requires p.n > 1 && k <= p.n - 1
    ensures Sum(RoundAll(Quotas(p)[..k])) as real == RealSum(Quotas(p)[..k]) + k as real / 2.0
  {
    var s := Quotas(p)[..k];
    forall i | 0 <= i < k
      ensures Round(s[i]) as real == s[i] + 0.5
    {
      HalfRoundsUp(p, i);
    }
    HalvesRoundUp(s);
  }

  /** Every row but the last gains one half. */
  lemma OthersGain(p: Split, total: nat)
    requires IsSplit(p, total)
    ensures OthersSum(Quotas(p)) as real == total as real - p.last + (p.n - 1) as real / 2.0
  {
    QuotasAddUp(p, total);
    HalvesOf(p, p.n - 1);
  }

  /** That is more together than the last row has to give. */
  lemma SplitOvershoots(p: Split, total: nat)
    requires IsSplit(p, total) && 2 * p.low + 2 < p.n - 1
    ensures Sum(Apportioned(total, Quotas(p))) > total
  {
    OthersGain(p, total);
    ApportionedSum(total, Quotas(p));
  }

  lemma SplitParts(n: nat, total: nat, odd: nat, low: nat, more: nat)
    requires n > 1 && odd == n % 2 && low >= 10 && 0 <= 2 * more < 2 * n
    requires 2 * total == 2 * (n * low) + n + odd + 2 * more
    ensures IsSplit(Split(n, low, more, if odd == 1 then low as real + 1.0 else low as real + 0.5), total)
  {
    assert low * (n - 1) == n * low - low;
  }

  lemma MultipleMonotone(n: nat, x: int, y: int)
    requires x <= y
    ensures n * x <= n * y
  {
  }

  lemma LowIsLarge(n: nat, low: nat, rest: nat)
    requires n > 1 && rest >= 22 * n && rest < 2 * (n * low) + 2 * n
    ensures low >= 10
  {
    if low < 10 { MultipleMonotone(n, low, 9); }
  }

  /** An even number in steps of `2 * n`: a multiple and an even remainder. */
  lemma DivideEvenly(n: nat, rest: nat) returns (low: nat, more: nat)
    requires n > 0 && rest % 2 == 0
    ensures rest == 2 * (n * low) + 2 * more && more < n
  {
    var half := rest / 2;
    low, more := half / n, half % n;
    assert half == n * low + more;
  }

  /** Any total of twelve units each can be split that way. */
  lemma SplitOf(n: nat, total: nat) returns (p: Split)
    requires n > 1 && total >= 12 * n
    ensures IsSplit(p, total) && p.n == n && 2 * (n * p.low) <= 2 * total - n
  {
    var odd := n % 2;
    var rest := 2 * total - n - odd;
    var low, more := DivideEvenly(n, rest);
    LowIsLarge(n, low, rest);
    SplitParts(n, total, odd, low, more);
    p := Split(n, low, more, if odd == 1 then low as real + 1.0 else low as real + 0.5);
  }

  // ----- the draws for given quotas -----

  /** The draw whose factor is `q` over `middle`. */
  function DrawFor(q: real, middle: real): (x: Draw)
    requires middle > 0.0 && 0.92 * middle <= q < 1.08 * middle
    ensures ShareFactor(x) * middle == q
  {
    QuotientBounds(q, middle);
    (q / middle - 0.92) / 0.16
  }

  lemma QuotientBounds(q: real, middle: real)
    requires middle > 0.0 && 0.92 * middle <= q < 1.08 * middle
    ensures 0.92 <= q / middle < 1.08 && q / middle * middle == q
  {
    DivideMultiply(q, middle);
    CancelBound(0.92, q / middle, middle);
    if q / middle >= 1.08 { MulLeft(1.08, q / middle, middle); }
  }

  lemma QuotaInReach(p: Split, total: nat, i: nat)
    requires IsSplit(p, total)
    ensures 0.92 * (p.low as real + 1.0) <= QuotaAt(p, i) < 1.08 * (p.low as real + 1.0)
  {
  }

  /** All employees weigh the least; each draws the share of its quota. */
  function SplitDraws(p: Split, total: nat, shape: nat -> Draw, noise: nat -> Draw): Draws
    requires IsSplit(p, total)
  {
    Draws(i => 0.0, shape, noise,
          i => QuotaInReach(p, total, i); DrawFor(QuotaAt(p, i), p.low as real + 1.0))
  }

  lemma LightestWeights(roster: seq<Text>, d: Draws)
    requires roster != [] && forall i: nat :: d.weight(i) == 0.0
    ensures var w := Weights(Seeds(roster, d));
      && (forall i | 0 <= i < |roster| :: w[i] == 0.75)
      && RealSum(w) == 0.75 * |roster| as real
  {
    SumBetween(Weights(Seeds(roster, d)), 0.75, 0.75);
  }

  lemma ShareOfQuota(weight: real, orgWeight: real, factor: real, middle: real, q: real)
    requires orgWeight > 0.0 && factor * middle == q
    ensures weight / orgWeight * factor * (orgWeight * middle) == q * weight
  {
    var part := weight / orgWeight;
    DivideMultiply(weight, orgWeight);
    assert part * factor * (orgWeight * middle) == part * orgWeight * (factor * middle);
    SameProduct(part * orgWeight, weight, factor * middle);
  }

  /** The draws of a split give each row the factor of its quota over the middle. */
  ghost predicate DrawsSplit(p: Split, seeds: seq<Seed>, d: Draws) {
    && |seeds| == p.n
    && (forall i | 0 <= i < p.n :: seeds[i].weight == 0.75)
    && (forall i: nat | i < p.n :: ShareFactor(d.share(i)) * (p.low as real + 1.0) == QuotaAt(p, i))
  }

  lemma SplitFactor(p: Split, total: nat, shape: nat -> Draw, noise: nat -> Draw, i: nat)
    requires IsSplit(p, total)
    ensures ShareFactor(SplitDraws(p, total, shape, noise).share(i)) * (p.low as real + 1.0) == QuotaAt(p, i)
  {
    QuotaInReach(p, total, i);
  }

  lemma SplitDrawsSplit(roster: seq<Text>, p: Split, total: nat, d: Draws)
    requires IsSplit(p, total) && p.n == |roster| && d == SplitDraws(p, total, d.shape, d.noise)
    ensures DrawsSplit(p, Seeds(roster, d), d)
  {
    forall i: nat | i < p.n
      ensures ShareFactor(d.share(i)) * (p.low as real + 1.0) == QuotaAt(p, i)
    {
      SplitFactor(p, total, d.shape, d.noise, i);
    }
  }

  lemma ShareFollowsQuota(p: Split, seeds: seq<Seed>, d: Draws, orgWeight: real, a: real, i: nat)
    requires DrawsSplit(p, seeds, d) && i < p.n && orgWeight > 0.0 && a == orgWeight * (p.low as real + 1.0)
    ensures RawSharesOver(seeds, d, orgWeight)[i] * a == QuotaAt(p, i) * 0.75
  {
    RawShareIs(seeds, d, orgWeight, i);
    ShareOfQuota(0.75, orgWeight, ShareFactor(d.share(i)), p.low as real + 1.0, QuotaAt(p, i));
  }

  /** The raw shares are to the quotas as the least weight is to the middle times the weight of all. */
  lemma SharesFollowQuotas(p: Split, seeds: seq<Seed>, d: Draws, orgWeight: real, a: real)
    requires DrawsSplit(p, seeds, d) && orgWeight > 0.0 && a == orgWeight * (p.low as real + 1.0)
    ensures InProportion(RawSharesOver(seeds, d, orgWeight), a, Quotas(p), 0.75)
  {
    forall i: nat | i < p.n
      ensures RawSharesOver(seeds, d, orgWeight)[i] * a == QuotaAt(p, i) * 0.75
    {
      ShareFollowsQuota(p, seeds, d, orgWeight, a, i);
    }
  }

  /** One row of what is in proportion to quotas, normalised and scaled. */
  lemma ScaledRowBack(raw: seq<real>, q: seq<real>, a: real, b: real, sum: real, total: nat, i: nat)
    requires InProportion(raw, a, q, b) && i < |raw| && raw[i] > 0.0 && sum > 0.0 && b > 0.0 && total > 0
    requires sum * a == total as real * b
    ensures Scaled(total, Divided(raw, sum))[i] == q[i]
  {
    ShareTerm(total, raw, sum, i);
    TermBack(Scaled(total, Divided(raw, sum))[i], raw[i], q[i], sum, total as real, a, b);
  }

  /** What is in proportion to quotas, normalised and scaled, is the quotas. */
  lemma ScaledBack(raw: seq<real>, q: seq<real>, a: real, b: real, total: nat)
    requires InProportion(raw, a, q, b) && AllPositive(raw) && b > 0.0
    requires total > 0 && RealSum(q) == total as real
    ensures Scaled(total, Shares(raw)) == q
  {
    PositiveSum(raw);
    var x, y := SumProducts(raw, a, q, b);
    SameProduct(y, total as real, b);
    forall i | 0 <= i < |raw|
      ensures Scaled(total, Divided(raw, x))[i] == q[i]
    {
      ScaledRowBack(raw, q, a, b, x, total, i);
    }
  }

  lemma TermBack(s: real, raw: real, q: real, sum: real, total: real, a: real, b: real)
    requires s * sum == raw * total && raw * a == q * b && sum * a == total * b
    requires total > 0.0 && b > 0.0
    ensures s == q
  {
    assert s * (sum * a) == s * sum * a;
    assert raw * total * a == raw * a * total;
    assert q * b * total == q * (total * b);
    ProductPositive(total, b);
    CancelFactor(s, total * b, total * b, q);
  }

  /** Shares drawn for a split scale back to its quotas. */
  lemma SplitTable(roster: seq<Text>, p: Split, total: nat, shape: nat -> Draw, noise: nat -> Draw)
    requires IsSplit(p, total) && p.n == |roster| && total > 0
    ensures var d := SplitDraws(p, total, shape, noise);
      Scaled(total, Shares(RawShares(Seeds(roster, d), d))) == Quotas(p)
  {
    var d := SplitDraws(p, total, shape, noise);
    var seeds, orgWeight := Seeds(roster, d), 0.75 * |roster| as real;
    SeedWeights(roster, d);
    RawSum(seeds, d, RealSum(Weights(seeds)));
    LightestWeights(roster, d);
    var a := orgWeight * (p.low as real + 1.0);
    SplitDrawsSplit(roster, p, total, d);
    SharesFollowQuotas(p, seeds, d, orgWeight, a);
    QuotasAddUp(p, total);
    ScaledBack(RawSharesOver(seeds, d, orgWeight), Quotas(p), a, 0.75, total);
  }

  // ----- rosters that are large for their units -----

  /** The units of the range when all of a roster of `n` weigh the least. */
  function LightestUnits(range: Range, n: nat, shape: nat -> Draw, noise: nat -> Draw): nat {
    UnitsUpTo(range, Buckets(range), 0.75 * n as real, Draws(i => 0.0, shape, noise, i => 0.0))
  }

  lemma {:induction false} UnitsIgnoreShares(range: Range, k: nat, w: real, d: Draws, d': Draws)
    requires d.shape == d'.shape && d.noise == d'.noise
    ensures UnitsUpTo(range, k, w, d) == UnitsUpTo(range, k, w, d')
  {
    if k > 0 { UnitsIgnoreShares(range, k - 1, w, d, d'); }
  }

  lemma LowIsBelowHalf(n: nat, low: nat, total: nat)
    requires 2 * (n * low) <= 2 * total - n && 2 * total < n * (n - 2)
    ensures 2 * low + 2 < n - 1
  {
    assert n * (2 * low) == 2 * (n * low) && n * (n - 2) == n * (n - 3) + n;
    if 2 * low >= n - 3 { MultipleMonotone(n, n - 3, 2 * low); }
  }

  /** The units are those of the lightest roster, and more than any split needs. */
  lemma SplitUnits(range: Range, roster: seq<Text>, shape: nat -> Draw, noise: nat -> Draw, d: Draws)
    requires |roster| > 1 && (forall i: nat :: d.weight(i) == 0.0) && d.shape == shape && d.noise == noise
    ensures UnitsUpTo(range, Buckets(range), OrgWeight(Seeds(roster, d)), d)
         == LightestUnits(range, |roster|, shape, noise)
  {
    LightestWeights(roster, d);
    assert OrgWeight(Seeds(roster, d)) == 0.75 * |roster| as real;
    UnitsIgnoreShares(range, Buckets(range), 0.75 * |roster| as real, Draws(i => 0.0, shape, noise, i => 0.0), d);
  }

  lemma LightestAreEnough(range: Range, n: nat, shape: nat -> Draw, noise: nat -> Draw)
    requires n > 1
    ensures LightestUnits(range, n, shape, noise) >= 12 * n
  {
    UsedFloor(range, 0.75 * n as real, Draws(i => 0.0, shape, noise, i => 0.0));
  }

  /**
    Whatever the noise and the shape, a roster overshoots for some shares once each
    employee's part of the units, all weighing the least, is less than half the
    number of the others, less one half.
   */
  lemma LargeForItsUnits(range: Range, roster: seq<Text>, shape: nat -> Draw, noise: nat -> Draw)
    returns (d: Draws, used: nat)
    requires |roster| > 1 && 2 * LightestUnits(range, |roster|, shape, noise) < |roster| * (|roster| - 2)
    ensures d.shape == shape && d.noise == noise
    ensures used == UnitsUpTo(range, Buckets(range), OrgWeight(Seeds(roster, d)), d)
    ensures forall yen, rows | IsTable(Seeds(roster, d), d, used, yen, rows) :: Sum(RowUnits(rows)) > used
  {
    used := LightestUnits(range, |roster|, shape, noise);
    LightestAreEnough(range, |roster|, shape, noise);
    var p := SplitOf(|roster|, used);
    d := SplitDraws(p, used, shape, noise);
    SplitUnits(range, roster, shape, noise, d);
    LowIsBelowHalf(|roster|, p.low, used);
    SplitTable(roster, p, used, shape, noise);
    SplitOvershoots(p, used);
  }

  // ----- an upper bound on the units -----

  /** How far the draws can raise a bucket's shape above its least. */
  function Swing(range: Range): real {
    if range == Day then 1.0 else 1.3
  }

  lemma ProductCeiling(w: real, shape: real, noise: real, most: real)
    requires w >= 0.0 && 0.0 <= shape <= most && 0.0 <= noise <= 1.25
    ensures w * shape * noise <= w * most * 1.25
  {
    assert w * shape <= w * most by { assert w * (most - shape) >= 0.0; }
    assert w * shape >= 0.0;
    assert w * shape * noise <= w * shape * 1.25 by { assert w * shape * (1.25 - noise) >= 0.0; }
  }

  lemma ShapeCeiling(range: Range, i: nat, draw: Draw)
    ensures 0.0 <= Shape(range, i, draw) <= Swing(range) * MinShape(range, i)
  {
  }

  /** The part of a bucket's units that does not vary, without the noise. */
  function BareRate(range: Range): real {
    match range
    case Day => 8.0 * 1.05 * 0.45
    case Week => 110.0 * 1.18 * 0.45
    case Month => 95.0 * 1.22 * 0.45
  }

  lemma CeilingIsFloorTimes(range: Range, i: nat, w: real)
    ensures BareRate(range) * (w * (Swing(range) * MinShape(range, i)) * 1.25)
         == Swing(range) * 1.5625 * FloorOf(range, i, w)
  {
    FloorIsRateTimesShape(range, i, w);
    var x := w * MinShape(range, i);
    assert w * (Swing(range) * MinShape(range, i)) == Swing(range) * x;
  }

  lemma RateIsBare(range: Range, x: real)
    ensures BaseUnits(range) * Overshoot(range) * 0.45 * x == BareRate(range) * x
  {
  }

  lemma RoundAtMost(x: real, most: real)
    requires x <= most && 0.0 <= most
    ensures Max0(Round(x)) as real <= most + 0.5
  {
  }

  lemma FloorNonNegative(range: Range, i: nat, w: real)
    requires w >= 0.0
    ensures Swing(range) * 1.5625 * FloorOf(range, i, w) >= 0.0
  {
  }

  lemma EstimateIs(range: Range, w: real, shape: real, noise: real)
    ensures Estimate(range, w, shape, noise) == BareRate(range) * (w * shape * noise)
  {
    Reorder(BaseUnits(range), w, shape, noise, Overshoot(range));
    RateIsBare(range, w * shape * noise);
  }

  lemma RoundNear(x: real)
    requires x >= 0.0
    ensures Distance(Max0(Round(x)) as real, x) <= 0.5
  {
  }

  /** How busy a bucket is: office hours and margins of the day, working days of week and month. */
  function Busy(range: Range, i: nat, draw: real): real {
    match range
    case Day => if 7 <= i <= 21 then (if 9 <= i <= 18 then 1.2 else 0.6) else 0.2
    case Week => if i < 5 then 1.05 + 0.25 * draw else 0.3
    case Month => if i % 7 == 3 || i % 7 == 4 then 0.4 else 1.0 + 0.3 * draw
  }

  lemma EstimateNear(range: Range, w: real, shape: real, noise: real)
    requires w >= 0.0 && shape >= 0.0 && noise >= 0.0
    ensures Distance(Max0(Round(Estimate(range, w, shape, noise))) as real,
                     BareRate(range) * (w * shape * noise)) <= 0.5
  {
    EstimateIs(range, w, shape, noise);
    ProductNonNegative(w, shape);
    ProductNonNegative(w * shape, noise);
    ProductNonNegative(BareRate(range), w * shape * noise);
    RoundNear(Estimate(range, w, shape, noise));
  }

  /** The units of a bucket are within half a unit of rate, weight, shape and noise multiplied, by its own two draws. */
  lemma BucketNearProduct(range: Range, i: nat, w: real, d: Draws) returns (shape: real, noise: real)
    requires w >= 0.0
    ensures shape == Busy(range, i, d.shape(i)) && noise == 0.8 + d.noise(i) * 0.45
    ensures Distance(BucketUnits(range, i, w, d) as real, BareRate(range) * (w * shape * noise)) <= 0.5
  {
    shape, noise := Shape(range, i, d.shape(i)), NoiseFactor(d.noise(i));
    ShapeIsBusy(range, i, d.shape(i));
    ShapeCeiling(range, i, d.shape(i));
    EstimateNear(range, w, shape, noise);
  }

  lemma ShapeIsBusy(range: Range, i: nat, draw: Draw)
    ensures Shape(range, i, draw) == Busy(range, i, draw)
  {
    assert (i + 2) % 7 == 5 || (i + 2) % 7 == 6 <==> i % 7 == 3 || i % 7 == 4;
  }

  lemma RateAtMost(range: Range, x: real, most: real)
    requires x <= most
    ensures BareRate(range) * x <= BareRate(range) * most
  {
    MulLeft(x, most, BareRate(range));
  }

  lemma EstimateAtMost(range: Range, w: real, shape: real, noise: real, most: real)
    requires w >= 0.0 && 0.0 <= shape <= most && 0.0 <= noise <= 1.25
    ensures Estimate(range, w, shape, noise) <= BareRate(range) * (w * most * 1.25)
  {
    Reorder(BaseUnits(range), w, shape, noise, Overshoot(range));
    RateIsBare(range, w * shape * noise);
    ProductCeiling(w, shape, noise, most);
    RateAtMost(range, w * shape * noise, w * most * 1.25);
  }

  lemma BucketCeiling(range: Range, i: nat, w: real, shape: Draw, noise: Draw)
    requires w >= 0.0
    ensures DrawnUnits(range, i, w, shape, noise) as real <= Swing(range) * 1.5625 * FloorOf(range, i, w) + 0.5
  {
    ShapeCeiling(range, i, shape);
    EstimateAtMost(range, w, Shape(range, i, shape), NoiseFactor(noise), Swing(range) * MinShape(range, i));
    CeilingIsFloorTimes(range, i, w);
    FloorNonNegative(range, i, w);
    RoundAtMost(Estimate(range, w, Shape(range, i, shape), NoiseFactor(noise)),
                Swing(range) * 1.5625 * FloorOf(range, i, w));
  }

  lemma {:induction false} UnitsCeiling(range: Range, k: nat, w: real, d: Draws)
    requires w >= 0.0
    ensures UnitsUpTo(range, k, w, d) as real <= Swing(range) * 1.5625 * FloorUpTo(range, k, w) + k as real * 0.5
  {
    if k > 0 {
      UnitsCeiling(range, k - 1, w, d);
      BucketCeiling(range, k - 1, w, d.shape(k - 1), d.noise(k - 1));
    }
  }

  /** Whatever the draws, the units are at most a constant per unit of org weight. */
  lemma UsedCeiling(range: Range, w: real, d: Draws)
    requires w >= 0.0
    ensures UnitsUpTo(range, Buckets(range), w, d) as real <= Swing(range) * 1.5625 * Slope(range) * w + Loss(range)
  {
    UnitsCeiling(range, Buckets(range), w, d);
    match range {
      case Day => DayFloor(w);
      case Week => WeekFloor(w);
      case Month => MonthFloor(w);
    }
  }

  /** The number of employees from which on every roster is large for the units of the range. */
  function LargeRoster(range: Range): nat {
    match range case Day => 122 case Week => 835 case Month => 3206
  }

  lemma SquareOutgrows(n: nat, most: nat, units: nat)
    requires n >= most && 2 * units <= n * (most - 2) - 1
    ensures 2 * units < n * (n - 2)
  {
    MultipleMonotone(n, most - 2, n - 2);
  }

  /**
    For every range, whatever the noise and the shape of its buckets, every roster
    that is large for the range has shares under which the table comes to more than
    the headline.
   */
  lemma EveryNoiseOvershoots(range: Range, roster: seq<Text>, shape: nat -> Draw, noise: nat -> Draw)
    returns (d: Draws, used: nat)
    requires |roster| >= LargeRoster(range)
    ensures d.shape == shape && d.noise == noise
    ensures used == UnitsUpTo(range, Buckets(range), OrgWeight(Seeds(roster, d)), d)
    ensures forall yen, rows | IsTable(Seeds(roster, d), d, used, yen, rows) :: Sum(RowUnits(rows)) > used
  {
    var n := |roster|;
    UsedCeiling(range, 0.75 * n as real, Draws(i => 0.0, shape, noise, i => 0.0));
    SquareOutgrows(n, LargeRoster(range), LightestUnits(range, n, shape, noise));
    d, used := LargeForItsUnits(range, roster, shape, noise);
  }
}
