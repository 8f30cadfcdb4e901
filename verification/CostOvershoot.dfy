/**
  Where the employee table of the cost bundle fails to add up: for every roster of
  more than 67 employees there are draws under which the rows before the last,
  each rounded up from just above a half, take one unit more than there is. The
  draws are arbitrary, those for the noise of the buckets too.
 */
module CostOvershoot {
  import opened CodeUnits
  import opened Rounding
  import opened CostDemo
  import opened CostConservation

  /**
    All employees but the last weigh the most and have the largest factor, the last
    one weighs the least; only bucket 9 has noise.
   */
  function Lopsided(n: nat, weight: Draw, noise: Draw): Draws {
    Draws(i => if i < n - 1 then weight else 0.0, i => 0.0, i => if i == 9 then noise else 0.0,
          i => if i < n - 1 then 0.999 else 0.0)
  }

  // ----- the units of the day, steered by the noise of one bucket -----

  /** What the buckets of the day other than bucket 9 come to without noise. */
  function RestUnits(w: real): int {
    9 * Round(0.6048 * w) + 9 * Round(3.6288 * w) + 5 * Round(1.8144 * w)
  }

  lemma QuietBucket(i: nat, w: real, d: Draws)
    requires w >= 0.0 && d.noise(i) == 0.0
    ensures BucketUnits(Day, i, w, d) == Round(FloorOf(Day, i, w)) >= 0
  {
  }

  /** The units of the day by the time of day: at night, in the margins, in office hours, and in bucket 9. */
  function ByHour(night: nat, margin: nat, office: nat, nine: nat): nat -> nat {
    i => if i < 7 || i > 21 then night else if i == 9 then nine else if 9 <= i <= 18 then office else margin
  }

  function Total(f: nat -> nat, k: nat): nat {
    if k == 0 then 0 else Total(f, k - 1) + f(k - 1)
  }

  lemma {:induction false} EqualHours(f: nat -> nat, lo: nat, hi: nat, units: nat)
    requires lo <= hi && forall i | lo <= i < hi :: f(i) == units
    ensures Total(f, hi) == Total(f, lo) + (hi - lo) * units
  {
    if lo < hi {
      EqualHours(f, lo, hi - 1, units);
      assert (hi - lo) * units == (hi - 1 - lo) * units + units;
    }
  }

  lemma HoursAddUp(night: nat, margin: nat, office: nat, nine: nat)
    ensures Total(ByHour(night, margin, office, nine), 24) == 9 * night + 9 * office + 5 * margin + nine
  {
    var f := ByHour(night, margin, office, nine);
    EqualHours(f, 0, 7, night);
    EqualHours(f, 7, 9, margin);
    EqualHours(f, 9, 10, nine);
    EqualHours(f, 10, 19, office);
    EqualHours(f, 19, 22, margin);
    EqualHours(f, 22, 24, night);
  }

  lemma {:induction false} UnitsAre(k: nat, w: real, d: Draws, f: nat -> nat)
    requires forall i: nat | i < k :: BucketUnits(Day, i, w, d) == f(i)
    ensures UnitsUpTo(Day, k, w, d) == Total(f, k)
  {
    if k > 0 { UnitsAre(k - 1, w, d, f); }
  }

  lemma NoisyBucket(w: real, d: Draws, target: nat)
    requires w > 0.0 && d.noise(9) == (target as real - 3.6288 * w) / (2.0412 * w)
    ensures BucketUnits(Day, 9, w, d) == target
  {
    var x := d.noise(9);
    DivideMultiply(target as real - 3.6288 * w, 2.0412 * w);
    assert x * (2.0412 * w) == 2.0412 * (w * x);
    assert 8.0 * w * 1.2 * (0.8 + x * 0.45) * 1.05 * 0.45 == 3.6288 * w + 2.0412 * (w * x);
  }

  lemma QuotientBelowOne(b: real, a: real)
    requires 0.0 <= b < a
    ensures 0.0 <= b / a < 1.0
  {
  }

  /** The noise that makes bucket 9 come to `target` units. */
  lemma NoiseFor(w: real, target: nat) returns (noise: Draw)
    requires w > 0.0 && 3.6288 * w <= target as real < 5.67 * w
    ensures noise == (target as real - 3.6288 * w) / (2.0412 * w)
  {
    QuotientBelowOne(target as real - 3.6288 * w, 2.0412 * w);
    noise := (target as real - 3.6288 * w) / (2.0412 * w);
  }

  /** The noise that brings the day to `target` units, if one bucket can make up for what is missing. */
  lemma ReachUnits(n: nat, weight: Draw, w: real, target: int) returns (noise: Draw)
    requires w > 0.0 && 3.6288 * w <= (target - RestUnits(w)) as real < 5.67 * w
    ensures UnitsUpTo(Day, Buckets(Day), w, Lopsided(n, weight, noise)) == target
  {
    var missing := target - RestUnits(w);
    noise := NoiseFor(w, missing);
    UnitsWithNoise(n, weight, w, noise, missing);
  }

  lemma UnitsWithNoise(n: nat, weight: Draw, w: real, noise: Draw, nine: nat)
    requires w > 0.0 && noise == (nine as real - 3.6288 * w) / (2.0412 * w)
    ensures UnitsUpTo(Day, Buckets(Day), w, Lopsided(n, weight, noise)) == RestUnits(w) + nine
  {
    var d := Lopsided(n, weight, noise);
    var night, margin, office := Round(0.6048 * w), Round(1.8144 * w), Round(3.6288 * w);
    var f := ByHour(night, margin, office, nine);
    forall i: nat | i < 24
      ensures BucketUnits(Day, i, w, d) == f(i)
    {
      if i == 9 { NoisyBucket(w, d, nine); } else { QuietBucket(i, w, d); }
    }
    UnitsAre(24, w, d, f);
    HoursAddUp(night, margin, office, nine);
  }

  // ----- weights, shares and quotas -----

  /** The weight of the whole roster when all but the last of `n` weigh `w`. */
  function LopsidedWeight(n: nat, w: real): real {
    w * (n - 1) as real + 0.75
  }

  lemma LopsidedWeights(roster: seq<Text>, weight: Draw, noise: Draw)
    requires |roster| > 1
    ensures var w := Weights(Seeds(roster, Lopsided(|roster|, weight, noise)));
      && (forall i | 0 <= i < |roster| - 1 :: w[i] == 0.75 + weight * 0.6)
      && w[|roster| - 1] == 0.75
      && RealSum(w) == LopsidedWeight(|roster|, 0.75 + weight * 0.6)
  {
    var w, n := Weights(Seeds(roster, Lopsided(|roster|, weight, noise))), |roster| - 1;
    SumBetween(w[..n], 0.75 + weight * 0.6, 0.75 + weight * 0.6);
  }

  /** A share before normalising: weight over total, times the factor. */
  lemma RawShareTimesTotal(w: real, total: real, f: real) returns (u: real)
    requires w > 0.0 && total > 0.0 && f > 0.0
    ensures u == w / total * f && u > 0.0 && u * total == w * f
  {
    u := w / total * f;
    QuotientPositive(w, total);
    ProductPositive(w / total, f);
    DivideMultiply(w, total);
    SwapFactors(w / total, f, total);
    SameProduct(w / total * total, w, f);
  }

  /** A table of equal shares but for the last. */
  ghost predicate AllButLast(raw: seq<real>, u: real, v: real) {
    raw != [] && raw[|raw| - 1] == v && forall i | 0 <= i < |raw| - 1 :: raw[i] == u
  }

  lemma AllButLastSum(raw: seq<real>, u: real, v: real)
    requires AllButLast(raw, u, v)
    ensures RealSum(raw) == u * (|raw| - 1) as real + v
  {
    SumBetween(raw[..|raw| - 1], u, u);
  }

  lemma LopsidedRawShares(roster: seq<Text>, weight: Draw, noise: Draw, w: real, total: real)
    returns (u: real, v: real)
    requires |roster| > 1 && w == 0.75 + weight * 0.6 && total == LopsidedWeight(|roster|, w)
    ensures u > 0.0 && v > 0.0 && total > 0.0
    ensures u * total == w * 1.07984 && v * total == 0.69
    ensures var d := Lopsided(|roster|, weight, noise); AllButLast(RawShares(Seeds(roster, d), d), u, v)
  {
    var d := Lopsided(|roster|, weight, noise);
    var seeds := Seeds(roster, d);
    LopsidedWeights(roster, weight, noise);
    ProductPositive(w, (|roster| - 1) as real);
    u := RawShareTimesTotal(w, total, 1.07984);
    v := RawShareTimesTotal(0.75, total, 0.92);
    forall i | 0 <= i < |roster|
      ensures RawSharesOver(seeds, d, total)[i] == if i < |roster| - 1 then u else v
    {
      LopsidedShare(roster, weight, noise, w, total, i);
    }
  }

  lemma LopsidedShare(roster: seq<Text>, weight: Draw, noise: Draw, w: real, total: real, i: nat)
    requires i < |roster| && w == 0.75 + weight * 0.6 && total > 0.0
    ensures var d := Lopsided(|roster|, weight, noise);
      RawSharesOver(Seeds(roster, d), d, total)[i]
      == if i < |roster| - 1 then w / total * 1.07984 else 0.75 / total * 0.92
  {
    var d := Lopsided(|roster|, weight, noise);
    RawShareIs(Seeds(roster, d), d, total, i);
    if i < |roster| - 1 {
      assert Seeds(roster, d)[i].weight == w && ShareFactor(d.share(i)) == 1.07984;
    } else {
      assert Seeds(roster, d)[i].weight == 0.75 && ShareFactor(d.share(i)) == 0.92;
    }
  }

  /** The quota of a row that is not the last, from the equation it satisfies. */
  lemma QuotaJustAboveHalf(q: real, u: real, v: real, m: real)
    requires u > 0.0 && v > 0.0 && m >= 1.0
    requires q * (u * m + v) == u * (69.0 * m - 1.0)
    requires 68.5 * v <= u * (0.5 * m - 1.0)
    ensures Round(q) == 69
  {
    ProductPositive(u, m);
    var sum := u * m + v;
    assert 68.5 * sum == 68.5 * (u * m) + 68.5 * v;
    assert u * (69.0 * m - 1.0) == 69.0 * (u * m) - u;
    assert u * (0.5 * m - 1.0) == 0.5 * (u * m) - u;
    CancelBound(68.5, q, sum);
    CancelBound(q, 69.0, sum);
  }

  lemma LastShareIsSmall(u: real, v: real, m: real, w: real, total: real)
    requires total > 0.0 && u * total == w * 1.07984 && v * total == 0.69
    requires 68.5 * 0.69 <= w * 1.07984 * (0.5 * m - 1.0)
    ensures 68.5 * v <= u * (0.5 * m - 1.0)
  {
    assert 68.5 * v * total == 68.5 * (v * total);
    SwapFactors(u, 0.5 * m - 1.0, total);
    SameProduct(u * total, w * 1.07984, 0.5 * m - 1.0);
    CancelBound(68.5 * v, u * (0.5 * m - 1.0), total);
  }

  /** Quotas of rows with equal shares but for the last, when the last share is small. */
  lemma QuotasJustAboveHalf(raw: seq<real>, u: real, v: real, total: nat)
    requires AllButLast(raw, u, v) && u > 0.0 && v > 0.0 && |raw| > 1 && total == 69 * (|raw| - 1) - 1
    requires 68.5 * v <= u * (0.5 * (|raw| - 1) as real - 1.0)
    ensures forall i | 0 <= i < |raw| - 1 :: Round(Scaled(total, Shares(raw))[i]) == 69
  {
    PositiveSum(raw);
    var sum := RealSum(raw);
    AllButLastSum(raw, u, v);
    forall i | 0 <= i < |raw| - 1
      ensures Round(Scaled(total, Divided(raw, sum))[i]) == 69
    {
      ShareTerm(total, raw, sum, i);
      QuotaJustAboveHalf(Scaled(total, Divided(raw, sum))[i], u, v, (|raw| - 1) as real);
    }
  }

  /** A unit short of 69 for each employee but the last: those rows take all 69 anyway, the last one none. */
  lemma RowsTakeTooMuch(roster: seq<Text>, weight: Draw, noise: Draw, w: real)
    requires |roster| > 1 && w == 0.75 + weight * 0.6
    requires 68.5 * 0.69 <= w * 1.07984 * (0.5 * (|roster| - 1) as real - 1.0)
    ensures var d, total := Lopsided(|roster|, weight, noise), 69 * (|roster| - 1) - 1;
      Sum(Apportioned(total, Scaled(total, Shares(RawShares(Seeds(roster, d), d))))) == total + 1
  {
    var n, d := |roster| - 1, Lopsided(|roster|, weight, noise);
    var total, orgWeight := 69 * n - 1, LopsidedWeight(|roster|, w);
    var u, v := LopsidedRawShares(roster, weight, noise, w, orgWeight);
    LastShareIsSmall(u, v, n as real, w, orgWeight);
    var raw := RawShares(Seeds(roster, d), d);
    QuotasJustAboveHalf(raw, u, v, total);
    EqualSum(RoundAll(Scaled(total, Shares(raw))[..n]), 69);
    ApportionedSum(total, Scaled(total, Shares(raw)));
  }

  // ----- the rosters it happens for -----

  lemma RestBounds(w: real)
    ensures 47.1744 * w - 11.5 <= RestUnits(w) as real <= 47.1744 * w + 11.5
  {
  }

  lemma MissingFor68()
    ensures LopsidedWeight(68, 0.75 + 0.995 * 0.6) == 90.999 && RestUnits(90.999) == 4290
  {
  }

  /** What bucket 9 has to come to for `n` employees lies in its range of noise. */
  lemma MissingInRange(n: nat, w: real)
    requires n > 68 && w == LopsidedWeight(n, 1.338)
    ensures 3.6288 * w <= (69 * (n - 1) - 1 - RestUnits(w)) as real < 5.67 * w
  {
    RestBounds(w);
  }

  /** The table comes to one unit more than the total, which is one short of 69 for each employee but the last. */
  ghost predicate Overshoots(roster: seq<Text>, d: Draws) {
    var seeds, used := Seeds(roster, d), 69 * (|roster| - 1) - 1;
    && roster != []
    && UnitsUpTo(Day, Buckets(Day), OrgWeight(seeds), d) == used
    && Sum(Apportioned(used, Scaled(used, Shares(RawShares(seeds, d))))) == used + 1
  }

  lemma DrawsFor(roster: seq<Text>, weight: Draw, w: real, total: real) returns (d: Draws)
    requires |roster| > 1 && w == 0.75 + weight * 0.6 && total == LopsidedWeight(|roster|, w) && total > 0.0
    requires 68.5 * 0.69 <= w * 1.07984 * (0.5 * (|roster| - 1) as real - 1.0)
    requires 3.6288 * total <= (69 * (|roster| - 1) - 1 - RestUnits(total)) as real < 5.67 * total
    ensures Overshoots(roster, d)
  {
    var noise := ReachUnits(|roster|, weight, total, 69 * (|roster| - 1) - 1);
    d := Lopsided(|roster|, weight, noise);
    LopsidedWeights(roster, weight, noise);
    assert OrgWeight(Seeds(roster, d)) == total;
    RowsTakeTooMuch(roster, weight, noise, w);
  }

  lemma OvershootDraws(roster: seq<Text>) returns (d: Draws)
    requires |roster| > MAX_ROSTER
    ensures Overshoots(roster, d)
  {
    if |roster| == 68 {
      MissingFor68();
      d := DrawsFor(roster, 0.995, 1.347, 90.999);
    } else {
      MissingInRange(|roster|, LopsidedWeight(|roster|, 1.338));
      d := DrawsFor(roster, 0.98, 1.338, LopsidedWeight(|roster|, 1.338));
    }
  }

  /**
    For every roster of more than 67 employees there are draws under which the
    units of the day's table come to one more than the headline.
   */
  lemma LargeRostersOvershoot(roster: seq<Text>) returns (d: Draws, used: nat)
    requires |roster| > MAX_ROSTER
    ensures used == UnitsUpTo(Day, Buckets(Day), OrgWeight(Seeds(roster, d)), d)
    ensures forall yen, rows | IsTable(Seeds(roster, d), d, used, yen, rows) :: Sum(RowUnits(rows)) == used + 1
  {
    d := OvershootDraws(roster);
    used := 69 * (|roster| - 1) - 1;
  }

  /** Whatever the range and the draws, the table of the roster adds up to the headline. */
  ghost predicate AlwaysConserves(roster: seq<Text>) {
    forall range, d, rows ::
      var used := UnitsUpTo(range, Buckets(range), OrgWeight(Seeds(roster, d)), d);
      IsTable(Seeds(roster, d), d, used, OverageYen(range, used), rows)
      ==> Sum(RowUnits(rows)) == used && Sum(RowYen(rows)) == OverageYen(range, used)
  }

  /** The table of every roster of up to 67 employees always adds up, that of no larger one does. */
  lemma RosterSizeExactly(roster: seq<Text>)
    ensures AlwaysConserves(roster) <==> |roster| <= MAX_ROSTER
  {
    if |roster| <= MAX_ROSTER {
      forall range, d, rows
        ensures var used := UnitsUpTo(range, Buckets(range), OrgWeight(Seeds(roster, d)), d);
          IsTable(Seeds(roster, d), d, used, OverageYen(range, used), rows)
          ==> Sum(RowUnits(rows)) == used && Sum(RowYen(rows)) == OverageYen(range, used)
      {
        TableConserves(range, roster, d);
      }
    } else {
      var d, used := LargeRostersOvershoot(roster);
      var rows := TableOf(Seeds(roster, d), d, used, OverageYen(Day, used));
    }
  }

  /** There is a table for any figures. */
  lemma TableOf(seeds: seq<Seed>, d: Draws, used: nat, yen: nat) returns (rows: seq<CostRow>)
    requires seeds != []
    ensures IsTable(seeds, d, used, yen, rows)
  {
    var shares := Shares(RawShares(seeds, d));
    var units, yens := Apportioned(used, Scaled(used, shares)), Apportioned(yen, Scaled(yen, shares));
    rows := seq(|seeds|, i requires 0 <= i < |seeds| => CostRow(seeds[i].id, shares[i], units[i], yens[i]));
  }
}
