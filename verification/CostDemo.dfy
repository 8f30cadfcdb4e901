/**
  The demo cost bundle: units per time bucket, the overage each bucket adds, and
  the apportionment of units and yen to employees. Draws of the program's
  pseudo-random `unit` are arbitrary numbers in [0, 1).
 */
module CostDemo {
  import opened CodeUnits
  import opened Rounding

  datatype Range = Day | Week | Month

  /** A value of `unit(seed, i)`. */
  type Draw = x: real | 0.0 <= x < 1.0 witness 0.0

  /** The draws one call makes, by what they are used for and their index. */
  datatype Draws = Draws(weight: nat -> Draw, shape: nat -> Draw, noise: nat -> Draw, share: nat -> Draw)

  datatype Seed = Seed(id: Text, weight: real)

  datatype CostPoint = CostPoint(units: nat, yen: nat)

  datatype CostRow = CostRow(id: Text, share: real, units: int, yen: int)

  datatype Bundle = Bundle(
    usedUnits: nat, remainingUnits: nat, overageUnits: nat, metered: bool, estimatedOverageYen: nat,
    series: seq<CostPoint>, employees: seq<CostRow>)

  function Included(range: Range): nat {
    match range case Day => 120 case Week => 700 case Month => 2800
  }

  const YEN_PER_UNIT: nat := 8

  function Buckets(range: Range): nat {
    match range case Day => 24 case Week => 7 case Month => 30
  }

  function BaseUnits(range: Range): real {
    match range case Day => 8.0 case Week => 110.0 case Month => 95.0
  }

  function Overshoot(range: Range): real {
    match range case Day => 1.05 case Week => 1.18 case Month => 1.22
  }

  /** How busy bucket `i` is; the draw only matters on working days of the longer ranges. */
  function Shape(range: Range, i: nat, draw: Draw): real {
    match range
    case Day =>
      if i < 7 || i > 21 then 0.2 else if 9 <= i <= 18 then 1.2 else 0.6
    case Week =>
      if i >= 5 then 0.3 else 1.05 + draw * 0.25
    case Month =>
      var dow := (i + 2) % 7;
      if dow == 5 || dow == 6 then 0.4 else 1.0 + draw * 0.3
  }

  const FALLBACK: seq<real> := [1.2, 0.95, 0.7]

  /** The given roster with drawn weights, or the three sample employees when it is empty. */
  function Seeds(roster: seq<Text>, d: Draws): (r: seq<Seed>)
    ensures |r| == if roster == [] then 3 else |roster|
  {
    if roster == [] then
      [Seed(Literal("emp_sales"), FALLBACK[0]), Seed(Literal("emp_ops"), FALLBACK[1]),
       Seed(Literal("emp_support"), FALLBACK[2])]
    else
      seq(|roster|, i requires 0 <= i < |roster| => Seed(roster[i], 0.75 + d.weight(i) * 0.6))
  }

  function Weights(seeds: seq<Seed>): (w: seq<real>)
    ensures |w| == |seeds|
  {
    seq(|seeds|, i requires 0 <= i < |seeds| => seeds[i].weight)
  }

  function OrElseOne(x: real): real {
    if x == 0.0 then 1.0 else x
  }

  function OrgWeight(seeds: seq<Seed>): real {
    OrElseOne(RealSum(Weights(seeds)))
  }

  /** The units of a bucket before rounding. */
  function Estimate(range: Range, orgWeight: real, shape: real, noise: real): real {
    BaseUnits(range) * orgWeight * shape * noise * Overshoot(range) * 0.45
  }

  function NoiseFactor(draw: Draw): (f: real)
    ensures 0.8 <= f < 1.25
  {
    0.8 + draw * 0.45
  }

  /** The units of bucket `i` from the two draws made for it. */
  function DrawnUnits(range: Range, i: nat, orgWeight: real, shape: Draw, noise: Draw): nat {
    Max0(Round(Estimate(range, orgWeight, Shape(range, i, shape), NoiseFactor(noise))))
  }

  function BucketUnits(range: Range, i: nat, orgWeight: real, d: Draws): nat {
    DrawnUnits(range, i, orgWeight, d.shape(i), d.noise(i))
  }

  function UnitsUpTo(range: Range, k: nat, orgWeight: real, d: Draws): nat {
    if k == 0 then 0 else UnitsUpTo(range, k - 1, orgWeight, d) + BucketUnits(range, k - 1, orgWeight, d)
  }

  // ----- overage per bucket -----

  /** The units of the series come one after the other; this is how many precede bucket `i`. */
  function UnitsBefore(series: seq<CostPoint>, i: nat): nat
    requires i <= |series|
  {
    if i == 0 then 0 else UnitsBefore(series, i - 1) + series[i - 1].units
  }

  /** Metering unit by unit: of the `n` units numbered from `start`, those past the included ones. */
  function MeteredUnits(start: nat, n: nat, included: nat): nat {
    if n == 0 then 0
    else MeteredUnits(start, n - 1, included) + if start + n - 1 >= included then 1 else 0
  }

  lemma {:induction false} MeteredClosedForm(start: nat, n: nat, included: nat)
    ensures MeteredUnits(start, n, included) == Max0(start + n - included) - Max0(start - included)
  {
    if n > 0 {
      MeteredClosedForm(start, n - 1, included);
    }
  }

  /** What bucket `i` costs when its own units are metered one by one. */
  function Charge(series: seq<CostPoint>, i: nat, included: nat): nat
    requires i < |series|
  {
    MeteredUnits(UnitsBefore(series, i), series[i].units, included) * YEN_PER_UNIT
  }

  /** Each bucket is charged for exactly its own units past the included ones. */
  ghost predicate ChargedPerUnit(series: seq<CostPoint>, included: nat) {
    forall i | 0 <= i < |series| :: series[i].yen == Charge(series, i, included)
  }

  function YenBefore(series: seq<CostPoint>, i: nat): nat
    requires i <= |series|
  {
    if i == 0 then 0 else YenBefore(series, i - 1) + series[i - 1].yen
  }

  lemma {:induction false} UnitsBeforeSame(s: seq<CostPoint>, t: seq<CostPoint>, i: nat)
    requires |s| == |t| && i <= |s| && forall j | 0 <= j < |s| :: s[j].units == t[j].units
    ensures UnitsBefore(s, i) == UnitsBefore(t, i)
  {
    if i > 0 { UnitsBeforeSame(s, t, i - 1); }
  }

  lemma RunningDifference(series: seq<CostPoint>, i: nat, included: nat)
    requires i < |series|
    ensures UnitsBefore(series, i + 1) == UnitsBefore(series, i) + series[i].units
    ensures Charge(series, i, included)
         == (Max0(UnitsBefore(series, i + 1) - included) - Max0(UnitsBefore(series, i) - included)) * YEN_PER_UNIT
  {
    MeteredClosedForm(UnitsBefore(series, i), series[i].units, included);
  }

  function MeteredBefore(series: seq<CostPoint>, i: nat, included: nat): nat
    requires i <= |series|
  {
    if i == 0 then 0
    else MeteredBefore(series, i - 1, included)
         + MeteredUnits(UnitsBefore(series, i - 1), series[i - 1].units, included)
  }

  lemma {:induction false} MeteredTelescopes(series: seq<CostPoint>, included: nat, i: nat)
    requires i <= |series|
    ensures MeteredBefore(series, i, included) == Max0(UnitsBefore(series, i) - included)
  {
    if i > 0 {
      MeteredTelescopes(series, included, i - 1);
      MeteredClosedForm(UnitsBefore(series, i - 1), series[i - 1].units, included);
    }
  }

  lemma {:induction false} ChargesAddUp(series: seq<CostPoint>, included: nat, i: nat)
    requires i <= |series| && ChargedPerUnit(series, included)
    ensures YenBefore(series, i) == MeteredBefore(series, i, included) * YEN_PER_UNIT
  {
    if i > 0 {
      ChargesAddUp(series, included, i - 1);
    }
  }

  /** Charging per unit adds up, at every point of the series, to the overage so far. */
  lemma ChargesTelescope(series: seq<CostPoint>, included: nat, i: nat)
    requires i <= |series| && ChargedPerUnit(series, included)
    ensures YenBefore(series, i) == Max0(UnitsBefore(series, i) - included) * YEN_PER_UNIT
  {
    MeteredTelescopes(series, included, i);
    ChargesAddUp(series, included, i);
  }

  lemma ChargeSame(s: seq<CostPoint>, t: seq<CostPoint>, i: nat, included: nat)
    requires |s| == |t| && i < |s| && forall j | 0 <= j < |s| :: s[j].units == t[j].units
    ensures Charge(s, i, included) == Charge(t, i, included)
  {
    UnitsBeforeSame(s, t, i);
  }

  /** What the running-total loop computes for one bucket: the difference of two overages. */
  function RunningCharge(runningAfter: nat, units: nat, included: nat): int {
    (Max0(runningAfter - included) - Max0(runningAfter - units - included)) * YEN_PER_UNIT
  }

  lemma RunningChargeIsCharge(series: seq<CostPoint>, i: nat, included: nat)
    requires i < |series|
    ensures UnitsBefore(series, i + 1) == UnitsBefore(series, i) + series[i].units
    ensures RunningCharge(UnitsBefore(series, i + 1), series[i].units, included) == Charge(series, i, included)
  {
    RunningDifference(series, i, included);
  }

  /** The series with every bucket charged and the units as they were. */
  function Charged(series: seq<CostPoint>, included: nat): (r: seq<CostPoint>)
    ensures |r| == |series|
  {
    seq(|series|, i requires 0 <= i < |series| => series[i].(yen := Charge(series, i, included)))
  }

  lemma ChargedIsChargedPerUnit(series: seq<CostPoint>, included: nat)
    ensures ChargedPerUnit(Charged(series, included), included)
  {
    forall i | 0 <= i < |series|
      ensures Charge(Charged(series, included), i, included) == Charge(series, i, included)
    {
      ChargeSame(Charged(series, included), series, i, included);
    }
  }

  /** The running-total loop charges every bucket as per-unit metering does, and leaves the units alone. */
  method AllocateOverage(series: array<CostPoint>, included: nat)
    modifies series
    ensures series[..] == Charged(old(series[..]), included)
  {
    ghost var before := series[..];
    var running := 0;
    for i := 0 to series.Length
      invariant running == UnitsBefore(before, i)
      invariant series[i..] == before[i..]
      invariant series[..i] == Charged(before, included)[..i]
    {
      RunningChargeIsCharge(before, i, included);
      var p := series[i];
      assert p == series[i..][0] == before[i];
      running := running + p.units;
      var overAt := Max0(running - included);
      var prevOver := Max0(running - p.units - included);
      var bucketOverage := overAt - prevOver;
      series[i] := p.(yen := bucketOverage * YEN_PER_UNIT);
      assert series[i] == Charged(before, included)[i];
    }
    assert series[..] == Charged(before, included);
  }

  // ----- shares -----

  function Divided(s: seq<real>, divisor: real): (r: seq<real>)
    requires divisor != 0.0
    ensures |r| == |s|
  {
    seq(|s|, i requires 0 <= i < |s| => s[i] / divisor)
  }

  function Scaled(total: int, s: seq<real>): (r: seq<real>)
    ensures |r| == |s|
  {
    seq(|s|, i requires 0 <= i < |s| => total as real * s[i])
  }

  /** The draw near one that a share is multiplied by. */
  function ShareFactor(draw: Draw): (f: real)
    ensures 0.92 <= f <= 1.08
  {
    0.92 + draw * 0.16
  }

  /** The share of each employee before normalising: weight over total weight, times a draw near one. */
  function RawSharesOver(seeds: seq<Seed>, d: Draws, total: real): (r: seq<real>)
    requires total != 0.0
    ensures |r| == |seeds|
  {
    seq(|seeds|, i requires 0 <= i < |seeds| => seeds[i].weight / total * ShareFactor(d.share(i)))
  }

  function RawShares(seeds: seq<Seed>, d: Draws): (r: seq<real>)
    ensures |r| == |seeds|
  {
    RawSharesOver(seeds, d, OrgWeight(seeds))
  }

  /** The shares an employee table shows. */
  function Shares(raw: seq<real>): (r: seq<real>)
    ensures |r| == |raw|
  {
    Divided(raw, OrElseOne(RealSum(raw)))
  }

  function RowShares(rows: seq<CostRow>): (r: seq<real>)
    ensures |r| == |rows|
  {
    seq(|rows|, i requires 0 <= i < |rows| => rows[i].share)
  }

  function RowUnits(rows: seq<CostRow>): (r: seq<int>)
    ensures |r| == |rows|
  {
    seq(|rows|, i requires 0 <= i < |rows| => rows[i].units)
  }

  function RowYen(rows: seq<CostRow>): (r: seq<int>)
    ensures |r| == |rows|
  {
    seq(|rows|, i requires 0 <= i < |rows| => rows[i].yen)
  }

  /** One row of the table: the share normalised by the sum of all, units and yen rounded. */
  function RoundedRow(row: CostRow, shareSum: real, used: nat, yen: nat): CostRow
    requires shareSum != 0.0
  {
    var share := row.share / shareSum;
    row.(share := share, units := Round(used as real * share), yen := Round(yen as real * share))
  }

  lemma RoundedRowAt(before: seq<CostRow>, i: nat, used: nat, yen: nat)
    requires i < |before|
    ensures var shares := Shares(RowShares(before));
      var row := RoundedRow(before[i], OrElseOne(RealSum(RowShares(before))), used, yen);
      && row.share == shares[i]
      && row.units == RoundAll(Scaled(used, shares))[i]
      && row.yen == RoundAll(Scaled(yen, shares))[i]
  {
  }

  /** Normalises the shares in place and rounds units and yen row by row. */
  method RoundRows(rows: array<CostRow>, used: nat, yen: nat)
    modifies rows
    ensures forall i | 0 <= i < rows.Length :: rows[i].id == old(rows[i].id)
    ensures var shares := Shares(RowShares(old(rows[..])));
      && RowShares(rows[..]) == shares
      && RowUnits(rows[..]) == RoundAll(Scaled(used, shares))
      && RowYen(rows[..]) == RoundAll(Scaled(yen, shares))
  {
    ghost var before := rows[..];
    ghost var raw := RowShares(before);
    var shareSum := 0.0;
    for i := 0 to rows.Length
      invariant shareSum == RealSum(raw[..i])
    {
      shareSum := shareSum + rows[i].share;
      assert raw[..i + 1][..i] == raw[..i];
    }
    assert raw[..rows.Length] == raw;
    shareSum := OrElseOne(shareSum);
    for i := 0 to rows.Length
      invariant forall j | i <= j < rows.Length :: rows[j] == before[j]
      invariant forall j | 0 <= j < i :: rows[j] == RoundedRow(before[j], shareSum, used, yen)
    {
      rows[i] := RoundedRow(rows[i], shareSum, used, yen);
    }
    forall j | 0 <= j < rows.Length
      ensures RowUnits(rows[..])[j] == RoundAll(Scaled(used, Shares(raw)))[j]
      ensures RowYen(rows[..])[j] == RoundAll(Scaled(yen, Shares(raw)))[j]
      ensures RowShares(rows[..])[j] == Shares(raw)[j]
    {
      assert rows[..][j] == rows[j];
      RoundedRowAt(before, j, used, yen);
    }
  }

  function Repaired(total: int, s: seq<int>): seq<int>
    requires s != []
  {
    s[|s| - 1 := Max0(s[|s| - 1] + (total - Sum(s)))]
  }

  /** Adds what rounding lost, or takes what it added, from the last row; never below zero. */
  method RepairLastRow(rows: array<CostRow>, used: nat, yen: nat)
    requires rows.Length > 0
    modifies rows
    ensures forall i | 0 <= i < rows.Length :: rows[i].id == old(rows[i].id)
    ensures RowShares(rows[..]) == RowShares(old(rows[..]))
    ensures RowUnits(rows[..]) == Repaired(used, RowUnits(old(rows[..])))
    ensures RowYen(rows[..]) == Repaired(yen, RowYen(old(rows[..])))
  {
    ghost var before := rows[..];
    ghost var units, yens := RowUnits(before), RowYen(before);
    var unitsSum, yenSum := 0, 0;
    for i := 0 to rows.Length
      invariant unitsSum == Sum(units[..i]) && yenSum == Sum(yens[..i])
    {
      assert units[..i + 1][..i] == units[..i] && yens[..i + 1][..i] == yens[..i];
      unitsSum := unitsSum + rows[i].units;
      yenSum := yenSum + rows[i].yen;
    }
    assert units[..rows.Length] == units && yens[..rows.Length] == yens;
    var n := rows.Length - 1;
    var last := rows[n];
    rows[n] := last.(units := Max0(last.units + (used - unitsSum)), yen := Max0(last.yen + (yen - yenSum)));
    assert rows[..] == before[n := rows[n]];
  }

  /** The employee table: shares, rounded units and yen, and the repair. */
  method Apportion(rows: array<CostRow>, used: nat, yen: nat)
    modifies rows
    ensures forall i | 0 <= i < rows.Length :: rows[i].id == old(rows[i].id)
    ensures RowShares(rows[..]) == Shares(RowShares(old(rows[..])))
    ensures rows.Length > 0 ==>
      && RowUnits(rows[..]) == Apportioned(used, Scaled(used, Shares(RowShares(old(rows[..])))))
      && RowYen(rows[..]) == Apportioned(yen, Scaled(yen, Shares(RowShares(old(rows[..])))))
  {
    RoundRows(rows, used, yen);
    if rows.Length > 0 {
      RepairLastRow(rows, used, yen);
    }
  }

  predicate AllPositive(s: seq<real>) {
    s != [] && forall i | 0 <= i < |s| :: s[i] > 0.0
  }

  lemma PositiveSum(s: seq<real>)
    requires AllPositive(s)
    ensures RealSum(s) > 0.0
  {
    RealSumNonNegative(s);
    assert s[0] <= RealSum(s);
  }

  lemma ShareTerm(total: nat, raw: seq<real>, sum: real, i: nat)
    requires i < |raw| && sum > 0.0 && raw[i] > 0.0
    ensures Scaled(total, Divided(raw, sum))[i] * sum == raw[i] * total as real
    ensures Scaled(total, Divided(raw, sum))[i] >= 0.0
  {
    QuotaTerm(total as real, raw[i], sum);
    QuotientNonNegative(raw[i], sum);
    ProductNonNegative(total as real, raw[i] / sum);
  }

  lemma SharesInProportion(total: nat, raw: seq<real>, sum: real)
    requires AllPositive(raw) && sum > 0.0
    ensures InProportion(Scaled(total, Divided(raw, sum)), sum, raw, total as real)
    ensures forall i | 0 <= i < |raw| :: Scaled(total, Divided(raw, sum))[i] >= 0.0
  {
    forall i | 0 <= i < |raw|
      ensures Scaled(total, Divided(raw, sum))[i] * sum == raw[i] * total as real
      ensures Scaled(total, Divided(raw, sum))[i] >= 0.0
    {
      ShareTerm(total, raw, sum, i);
    }
  }

  /** Whatever positive numbers the shares come from, scaling them by a total gives quotas of it. */
  lemma SharesAreQuotas(total: nat, raw: seq<real>)
    requires AllPositive(raw)
    ensures AreQuotas(total, Scaled(total, Shares(raw)))
  {
    PositiveSum(raw);
    var sum := RealSum(raw);
    SharesInProportion(total, raw, sum);
    PartsAddUp(Scaled(total, Divided(raw, sum)), raw, total as real, sum);
  }

  // ----- the bundle -----

  /** The buckets hold the units of `range`. */
  ghost predicate HasUnits(range: Range, orgWeight: real, d: Draws, series: seq<CostPoint>) {
    |series| == Buckets(range) && forall i | 0 <= i < |series| :: series[i].units == BucketUnits(range, i, orgWeight, d)
  }

  lemma {:induction false} UnitsBeforeIsSum(range: Range, series: seq<CostPoint>, orgWeight: real, d: Draws, k: nat)
    requires HasUnits(range, orgWeight, d, series) && k <= |series|
    ensures UnitsBefore(series, k) == UnitsUpTo(range, k, orgWeight, d)
  {
    if k > 0 { UnitsBeforeIsSum(range, series, orgWeight, d, k - 1); }
  }

  method BuildSeries(range: Range, orgWeight: real, d: Draws) returns (series: array<CostPoint>, usedUnits: nat)
    ensures fresh(series) && HasUnits(range, orgWeight, d, series[..])
    ensures usedUnits == UnitsUpTo(range, Buckets(range), orgWeight, d)
  {
    series := new CostPoint[Buckets(range)](_ => CostPoint(0, 0));
    usedUnits := 0;
    for i := 0 to series.Length
      invariant usedUnits == UnitsUpTo(range, i, orgWeight, d)
      invariant forall j | 0 <= j < i :: series[j].units == BucketUnits(range, j, orgWeight, d)
    {
      var units := BucketUnits(range, i, orgWeight, d);
      usedUnits := usedUnits + units;
      series[i] := CostPoint(units, 0);
    }
  }

  /** A series with the bucket units of `range`, each bucket charged for its own units past the included ones. */
  ghost predicate IsMeteredSeries(range: Range, orgWeight: real, d: Draws, series: seq<CostPoint>) {
    HasUnits(range, orgWeight, d, series) && ChargedPerUnit(series, Included(range))
  }

  lemma ChargedKeepsUnits(range: Range, orgWeight: real, d: Draws, series: seq<CostPoint>, included: nat)
    requires HasUnits(range, orgWeight, d, series)
    ensures HasUnits(range, orgWeight, d, Charged(series, included))
  {
  }

  lemma ChargedIsMetered(range: Range, orgWeight: real, d: Draws, series: seq<CostPoint>)
    requires HasUnits(range, orgWeight, d, series)
    ensures IsMeteredSeries(range, orgWeight, d, Charged(series, Included(range)))
  {
    ChargedKeepsUnits(range, orgWeight, d, series, Included(range));
    ChargedIsChargedPerUnit(series, Included(range));
  }

  /** Units and yen of a metered series add up to the headline. */
  lemma MeteredAddsUp(range: Range, orgWeight: real, d: Draws, s: seq<CostPoint>)
    requires IsMeteredSeries(range, orgWeight, d, s)
    ensures var used := UnitsUpTo(range, Buckets(range), orgWeight, d);
      UnitsBefore(s, |s|) == used && YenBefore(s, |s|) == Max0(used - Included(range)) * YEN_PER_UNIT
  {
    UnitsBeforeIsSum(range, s, orgWeight, d, |s|);
    ChargesTelescope(s, Included(range), |s|);
  }

  method MeteredSeries(range: Range, orgWeight: real, d: Draws) returns (s: seq<CostPoint>, usedUnits: nat)
    ensures IsMeteredSeries(range, orgWeight, d, s)
    ensures usedUnits == UnitsUpTo(range, Buckets(range), orgWeight, d) == UnitsBefore(s, |s|)
    ensures YenBefore(s, |s|) == Max0(usedUnits - Included(range)) * YEN_PER_UNIT
  {
    var series, used := BuildSeries(range, orgWeight, d);
    ChargedIsMetered(range, orgWeight, d, series[..]);
    AllocateOverage(series, Included(range));
    MeteredAddsUp(range, orgWeight, d, series[..]);
    return series[..], used;
  }

  /** The employee table that shares out the given figures. */
  ghost predicate IsTable(seeds: seq<Seed>, d: Draws, used: nat, yen: nat, rows: seq<CostRow>) {
    var shares := Shares(RawShares(seeds, d));
    && |rows| == |seeds| && seeds != []
    && (forall i | 0 <= i < |seeds| :: rows[i].id == seeds[i].id)
    && RowShares(rows) == shares
    && RowUnits(rows) == Apportioned(used, Scaled(used, shares))
    && RowYen(rows) == Apportioned(yen, Scaled(yen, shares))
  }

  /** The table before normalising: raw shares, nothing attributed yet. */
  method StartRows(seeds: seq<Seed>, d: Draws) returns (rows: array<CostRow>)
    ensures fresh(rows) && rows.Length == |seeds|
    ensures forall i | 0 <= i < |seeds| :: rows[i].id == seeds[i].id
    ensures RowShares(rows[..]) == RawShares(seeds, d)
  {
    var raw := RawShares(seeds, d);
    rows := new CostRow[|seeds|](i requires 0 <= i < |seeds| => CostRow(seeds[i].id, raw[i], 0, 0));
  }

  method EmployeeTable(seeds: seq<Seed>, d: Draws, used: nat, yen: nat) returns (table: seq<CostRow>)
    requires seeds != []
    ensures IsTable(seeds, d, used, yen, table)
  {
    var rows := StartRows(seeds, d);
    Apportion(rows, used, yen);
    return rows[..];
  }

  /** One row for each employee of the roster, in its order, or for each sample employee. */
  ghost predicate RowsAreOf(roster: seq<Text>, rows: seq<CostRow>) {
    var ids := if roster == [] then [Literal("emp_sales"), Literal("emp_ops"), Literal("emp_support")] else roster;
    |rows| == |ids| && forall i | 0 <= i < |ids| :: rows[i].id == ids[i]
  }

  /**
    The whole bundle. The series is metered unit by unit and adds up to the
    headline figures; the employee table is the apportionment of those figures.
   */
  method GetCostDemo(range: Range, roster: seq<Text>, d: Draws) returns (b: Bundle)
    ensures b.usedUnits == UnitsUpTo(range, Buckets(range), OrgWeight(Seeds(roster, d)), d)
    ensures b.remainingUnits + b.usedUnits
         == (match range case Day => 120 case Week => 700 case Month => 2800) + b.overageUnits
    ensures b.remainingUnits == 0 || b.overageUnits == 0
    ensures b.metered <==> b.overageUnits > 0
    ensures b.estimatedOverageYen == b.overageUnits * 8
    ensures IsMeteredSeries(range, OrgWeight(Seeds(roster, d)), d, b.series)
    ensures UnitsBefore(b.series, |b.series|) == b.usedUnits
    ensures YenBefore(b.series, |b.series|) == b.estimatedOverageYen
    ensures IsTable(Seeds(roster, d), d, b.usedUnits, b.estimatedOverageYen, b.employees)
    ensures RowsAreOf(roster, b.employees)
  {
    var seeds := Seeds(roster, d);
    var included: int := Included(range);
    var series, usedUnits := MeteredSeries(range, OrgWeight(seeds), d);
    var remaining := Max0(included - usedUnits);
    var overage := Max0(usedUnits - included);
    var yen := overage * YEN_PER_UNIT;
    var employees := EmployeeTable(seeds, d, usedUnits, yen);
    b := Bundle(usedUnits, remaining, overage, overage > 0, yen, series, employees);
  }
}
