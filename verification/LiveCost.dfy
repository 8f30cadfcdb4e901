/**
  The live cost tab: confirm actions metered from the audit log against the plan's
  quota, with the overage yen shared out to employees by their metered actions.
 */
module LiveCost {
  import opened Options
  import opened CodeUnits
  import opened Counting
  import opened Rounding
  import opened LiveMetrics

  datatype Plan = Starter | Business | Managed | OtherPlan

  /** Confirm actions included per month; an unknown plan is billed as business. */
  function Quota(plan: Plan): nat {
    match plan case Starter => 50 case Managed => 2000 case _ => 500
  }

  function OverageYen(plan: Plan): nat {
    match plan case Starter => 80 case Managed => 25 case _ => 40
  }

  datatype CostRow = CostRow(id: Text, units: nat, share: real, yen: int)

  datatype LiveCost = LiveCost(
    usedUnits: nat, remainingUnits: nat, overageUnits: nat, metered: bool, estimatedOverageYen: nat,
    series: seq<nat>, employees: seq<CostRow>, empty: bool)

  predicate IsMetered(ev: Event) {
    ev.gatedConfirm && !ev.notBillable
  }

  function MeteredCount(events: seq<Event>): nat {
    CountIf(events, IsMetered)
  }

  function UnitsOf(events: seq<Event>, id: Text): nat {
    CountOf(events, id, IsMetered)
  }

  function MeteredCell(w: Window, events: seq<Event>, i: nat): nat
    requires ValidWindow(w)
  {
    Cell(w, events, i, IsMetered)
  }

  /** `Math.max(0, Math.floor(x) || 0)`; None stands for a value that is not a number. */
  function WholeUnits(x: Option<real>): (n: nat)
    ensures x.None? || x.value < 1.0 ==> n == 0
    ensures x.Some? && x.value >= 1.0 ==> n as real <= x.value < n as real + 1.0
  {
    match x
    case None => 0
    case Some(v) => Max0(v.Floor)
  }

  /** The ids in order of first appearance: the keys of the program's map. */
  function Keys(ids: seq<Text>): seq<Text> {
    if ids == [] then []
    else
      var keys := Keys(ids[..|ids| - 1]);
      var id := ids[|ids| - 1];
      if id in keys then keys else keys + [id]
  }

  lemma {:induction false} KeysAre(ids: seq<Text>)
    ensures Distinct(Keys(ids)) && forall id :: id in Keys(ids) <==> id in ids
    ensures Distinct(ids) ==> Keys(ids) == ids
  {
    if ids != [] {
      var before, id := ids[..|ids| - 1], ids[|ids| - 1];
      KeysAre(before);
      assert ids == before + [id];
      if Distinct(ids) { assert id !in before; }
    }
  }

  /** What is metered is attributed to a listed employee or to nobody listed, never both. */
  lemma MeteredIsAttributed(events: seq<Event>, ids: seq<Text>)
    ensures AttributedSum(events, Keys(ids), IsMetered) + UnknownCount(events, Keys(ids), IsMetered)
         == MeteredCount(events)
  {
    KeysAre(ids);
    AttributedAndUnknown(events, Keys(ids), IsMetered);
  }

  function ShareBase(events: seq<Event>, ids: seq<Text>): nat {
    var sum := AttributedSum(events, Keys(ids), IsMetered);
    if sum < 1 then 1 else sum
  }

  /** The headline number: the reported meter, or the audit count when nothing is reported. */
  function DisplayUsed(reported: Option<real>, events: seq<Event>): nat {
    if WholeUnits(reported) > 0 then WholeUnits(reported) else MeteredCount(events)
  }

  function Priced(units: nat, plan: Plan): nat {
    units * OverageYen(plan)
  }

  function HeadlineYen(plan: Plan, reported: Option<real>, events: seq<Event>): nat {
    Priced(Max0(DisplayUsed(reported, events) - Quota(plan)), plan)
  }

  /** The yen the employee table shares out: always those of the reported meter. */
  function SharedYen(plan: Plan, reported: Option<real>): nat {
    Priced(Max0(WholeUnits(reported) - Quota(plan)), plan)
  }

  /** The exact part of `total` that `units` out of `base` stand for. */
  function YenQuota(total: nat, units: nat, base: nat): real
    requires base > 0
  {
    total as real * (units as real / base as real)
  }

  function YenOf(total: nat, units: nat, base: nat): int
    requires base > 0
  {
    Round(YenQuota(total, units, base))
  }

  /** The employee table: units are the employee's own metered events, yen its rounded part of `yen`. */
  ghost predicate IsTable(events: seq<Event>, ids: seq<Text>, yen: nat, displayUsed: nat, rows: seq<CostRow>) {
    && |rows| == |ids|
    && forall i | 0 <= i < |ids| ::
      rows[i] == RowOf(ids[i], UnitsOf(events, ids[i]), yen, displayUsed, ShareBase(events, ids))
  }

  /** One row: units, their part of all attributed units, and the same part of the yen, rounded. */
  function RowOf(id: Text, units: nat, yen: nat, displayUsed: nat, base: nat): CostRow
    requires base > 0
  {
    CostRow(id, units, if displayUsed == 0 then 0.0 else units as real / base as real, YenOf(yen, units, base))
  }

  ghost predicate CellsCount(w: Window, events: seq<Event>, series: seq<nat>)
    requires ValidWindow(w)
  {
    |series| == w.buckets && forall i | 0 <= i < |series| :: series[i] == MeteredCell(w, events, i)
  }

  /** Every cell counts the metered events in its interval of time. */
  ghost predicate CellsTimed(w: Window, events: seq<Event>, series: seq<nat>)
    requires ValidWindow(w)
  {
    |series| == w.buckets && forall i | 0 <= i < |series| :: series[i] == TimedCell(w, events, i, IsMetered)
  }

  lemma CountsAreTimed(w: Window, events: seq<Event>, series: seq<nat>)
    requires ValidWindow(w) && CellsCount(w, events, series)
    ensures CellsTimed(w, events, series)
  {
    forall i | 0 <= i < |series|
      ensures series[i] == TimedCell(w, events, i, IsMetered)
    {
      CellIsTimed(w, events, i, IsMetered);
    }
  }

  ghost predicate UnitsCount(events: seq<Event>, byEmp: map<Text, nat>) {
    forall id | id in byEmp :: byEmp[id] == UnitsOf(events, id)
  }

  /** One more event adds one to its bucket if it is metered and in the window, and to nothing else. */
  lemma CellsMoved(w: Window, events: seq<Event>, k: nat, series: seq<nat>, series': seq<nat>)
    requires ValidWindow(w) && k < |events| && CellsCount(w, events[..k], series) && |series'| == |series|
    requires forall i | 0 <= i < |series| ::
      series'[i] == series[i] + if IsMetered(events[k]) && InBucket(w, events[k], i) then 1 else 0
    ensures CellsCount(w, events[..k + 1], series')
  {
    forall i | 0 <= i < |series|
      ensures series'[i] == MeteredCell(w, events[..k + 1], i)
    {
      CellNext(w, events, k, i, IsMetered);
    }
  }

  lemma UnitsMoved(events: seq<Event>, k: nat, byEmp: map<Text, nat>, byEmp': map<Text, nat>)
    requires k < |events| && UnitsCount(events[..k], byEmp) && byEmp'.Keys == byEmp.Keys
    requires forall id | id in byEmp ::
      byEmp'[id] == byEmp[id] + if IsMetered(events[k]) && Of(events[k], id) then 1 else 0
    ensures UnitsCount(events[..k + 1], byEmp')
  {
    forall id | id in byEmp'
      ensures byEmp'[id] == UnitsOf(events[..k + 1], id)
    {
      CountOfNext(events, k, id, IsMetered);
    }
  }

  /** The event loop: units per bucket of the window, units per employee over all events, and their number. */
  method Meter(w: Window, ids: seq<Text>, events: seq<Event>)
    returns (series: array<nat>, byEmp: map<Text, nat>, meteredEvents: nat)
    requires ValidWindow(w)
    ensures fresh(series) && CellsTimed(w, events, series[..])
    ensures UnitsCount(events, byEmp) && forall id :: id in byEmp <==> id in ids
    ensures meteredEvents == MeteredCount(events)
  {
    series := new nat[w.buckets](_ => 0);
    byEmp := map[];
    for i := 0 to |ids|
      invariant forall id :: id in byEmp <==> id in ids[..i]
      invariant forall id | id in byEmp :: byEmp[id] == 0
    {
      byEmp := byEmp[ids[i] := 0];
    }
    assert ids[..|ids|] == ids;
    meteredEvents := 0;
    for k := 0 to |events|
      invariant CellsCount(w, events[..k], series[..])
      invariant UnitsCount(events[..k], byEmp)
      invariant forall id :: id in byEmp <==> id in ids
      invariant meteredEvents == MeteredCount(events[..k])
    {
      var ev := events[k];
      CountNext(events, k, IsMetered);
      ghost var seriesBefore, byEmpBefore := series[..], byEmp;
      if !ev.gatedConfirm || ev.notBillable {
        CellsMoved(w, events, k, series[..], series[..]);
        UnitsMoved(events, k, byEmp, byEmp);
        continue;
      }
      meteredEvents := meteredEvents + 1;
      if ev.at.Some? && ev.at.value >= w.startMs {
        var idx := BucketOf(w, ev);
        series[idx] := series[idx] + 1;
      }
      if Truthy(ev.employee) && ev.employee.value in byEmp {
        byEmp := byEmp[ev.employee.value := byEmp[ev.employee.value] + 1];
      }
      CellsMoved(w, events, k, seriesBefore, series[..]);
      UnitsMoved(events, k, byEmpBefore, byEmp);
    }
    assert events[..|events|] == events;
    CountsAreTimed(w, events, series[..]);
  }

  /** The sum of the map's values, key by key in insertion order. */
  method SumValues(events: seq<Event>, ids: seq<Text>, byEmp: map<Text, nat>) returns (sum: nat)
    requires UnitsCount(events, byEmp) && forall id :: id in byEmp <==> id in ids
    ensures sum == AttributedSum(events, Keys(ids), IsMetered)
  {
    var keys := Keys(ids);
    KeysAre(ids);
    sum := 0;
    for i := 0 to |keys|
      invariant sum == AttributedSum(events, keys[..i], IsMetered)
    {
      assert keys[..i + 1][..i] == keys[..i];
      assert keys[i] in keys;
      sum := sum + byEmp[keys[i]];
    }
    assert keys[..|keys|] == keys;
  }

  /** The employee rows, from the units counted per employee. */
  method BuildRows(events: seq<Event>, ids: seq<Text>, byEmp: map<Text, nat>, yen: nat, displayUsed: nat)
    returns (rows: seq<CostRow>)
    requires UnitsCount(events, byEmp) && forall id :: id in byEmp <==> id in ids
    ensures IsTable(events, ids, yen, displayUsed, rows)
  {
    var sum := SumValues(events, ids, byEmp);
    var shareBase := if sum < 1 then 1 else sum;
    rows := seq(|ids|, i requires 0 <= i < |ids| && ids[i] in byEmp =>
      RowOf(ids[i], byEmp[ids[i]], yen, displayUsed, shareBase));
  }

  /**
    The cost tab. Used and remaining units balance against quota and overage; each
    bucket holds the metered events that land in it; the table is as `IsTable` says,
    sharing out the overage of the reported meter.
   */
  method BuildLiveCost(plan: Plan, reported: Option<real>, w: Window, ids: seq<Text>, events: seq<Event>)
    returns (r: LiveCost)
    requires ValidWindow(w)
    ensures r.usedUnits == DisplayUsed(reported, events)
    ensures r.remainingUnits + r.usedUnits
         == (if plan == Starter then 50 else if plan == Managed then 2000 else 500) + r.overageUnits
    ensures r.remainingUnits == 0 || r.overageUnits == 0
    ensures r.metered <==> r.overageUnits > 0
    ensures r.estimatedOverageYen == HeadlineYen(plan, reported, events)
         == r.overageUnits * if plan == Starter then 80 else if plan == Managed then 25 else 40
    ensures CellsTimed(w, events, r.series)
    ensures IsTable(events, ids, SharedYen(plan, reported), r.usedUnits, r.employees)
    ensures r.empty <==> WholeUnits(reported) == 0 && MeteredCount(events) == 0
  {
    var included: int := Quota(plan);
    var usedUnits := WholeUnits(reported);
    var yen := Priced(Max0(usedUnits - included), plan);
    var series, byEmp, meteredEvents := Meter(w, ids, events);
    var displayUsed := if usedUnits > 0 then usedUnits else meteredEvents;
    var rows := BuildRows(events, ids, byEmp, yen, displayUsed);
    var overage := Max0(displayUsed - included);
    r := LiveCost(displayUsed, Max0(included - displayUsed), overage, displayUsed > included,
                  Priced(overage, plan), series[..], rows, displayUsed == 0 && meteredEvents == 0);
  }

  // ----- what the table adds up to -----

  /** Metered are the confirm actions but those marked as not billable. */
  lemma MeteredSplits(events: seq<Event>)
    ensures MeteredCount(events) + CountIf(events, (ev: Event) => ev.gatedConfirm && ev.notBillable)
         == CountIf(events, (ev: Event) => ev.gatedConfirm)
  {
    CountSplit(events, (ev: Event) => ev.gatedConfirm, IsMetered, (ev: Event) => ev.gatedConfirm && ev.notBillable);
  }

  function UnitsSum(rows: seq<CostRow>): int {
    if rows == [] then 0 else UnitsSum(rows[..|rows| - 1]) + rows[|rows| - 1].units
  }

  function Yens(rows: seq<CostRow>): seq<int> {
    seq(|rows|, i requires 0 <= i < |rows| => rows[i].yen)
  }

  /** The exact part of `total` for each employee before rounding. */
  function YenQuotas(events: seq<Event>, ids: seq<Text>, total: nat, base: nat): (r: seq<real>)
    requires base > 0
    ensures |r| == |ids|
  {
    seq(|ids|, i requires 0 <= i < |ids| => YenQuota(total, UnitsOf(events, ids[i]), base))
  }

  function RealUnits(events: seq<Event>, ids: seq<Text>): (r: seq<real>)
    ensures |r| == |ids|
  {
    seq(|ids|, i requires 0 <= i < |ids| => UnitsOf(events, ids[i]) as real)
  }

  lemma {:induction false} RealUnitsSum(events: seq<Event>, ids: seq<Text>)
    ensures RealSum(RealUnits(events, ids)) == AttributedSum(events, ids, IsMetered) as real
  {
    if ids != [] {
      var before := ids[..|ids| - 1];
      RealUnitsSum(events, before);
      assert RealUnits(events, ids)[..|ids| - 1] == RealUnits(events, before);
    }
  }

  lemma {:induction false} UnitsSumIsAttributed(events: seq<Event>, ids: seq<Text>, rows: seq<CostRow>)
    requires |rows| == |ids| && forall i | 0 <= i < |ids| :: rows[i].units == UnitsOf(events, ids[i])
    ensures UnitsSum(rows) == AttributedSum(events, ids, IsMetered)
  {
    if ids != [] {
      UnitsSumIsAttributed(events, ids[..|ids| - 1], rows[..|rows| - 1]);
    }
  }

  /** For distinct employees the table's units and the unknown events make up all that is metered, window or not. */
  lemma UnitsConserved(events: seq<Event>, ids: seq<Text>, yen: nat, used: nat, rows: seq<CostRow>)
    requires Distinct(ids) && IsTable(events, ids, yen, used, rows)
    ensures UnitsSum(rows) + UnknownCount(events, ids, IsMetered) == MeteredCount(events)
  {
    KeysAre(ids);
    MeteredIsAttributed(events, ids);
    UnitsSumIsAttributed(events, ids, rows);
  }

  lemma YenQuotaTerm(total: nat, units: nat, base: nat)
    requires base > 0
    ensures YenQuota(total, units, base) * base as real == units as real * total as real
  {
    QuotaTerm(total as real, units as real, base as real);
  }

  lemma YenQuotasInProportion(events: seq<Event>, ids: seq<Text>, total: nat, base: nat)
    requires base > 0
    ensures InProportion(YenQuotas(events, ids, total, base), base as real, RealUnits(events, ids), total as real)
  {
    forall i | 0 <= i < |ids|
      ensures YenQuotas(events, ids, total, base)[i] * base as real == RealUnits(events, ids)[i] * total as real
    {
      YenQuotaTerm(total, UnitsOf(events, ids[i]), base);
    }
  }

  lemma YenQuotasAddUp(events: seq<Event>, ids: seq<Text>, total: nat, base: nat)
    requires base > 0 && base == AttributedSum(events, ids, IsMetered)
    ensures RealSum(YenQuotas(events, ids, total, base)) == total as real
  {
    RealUnitsSum(events, ids);
    YenQuotasInProportion(events, ids, total, base);
    PartsAddUp(YenQuotas(events, ids, total, base), RealUnits(events, ids), total as real, base as real);
  }

  /** Once one unit is attributed, the table's yen are within half a yen per employee of the yen shared out. */
  lemma YenWithinHalf(events: seq<Event>, ids: seq<Text>, yen: nat, used: nat, rows: seq<CostRow>)
    requires Distinct(ids) && IsTable(events, ids, yen, used, rows)
    requires UnitsSum(rows) > 0
    ensures Distance(Sum(Yens(rows)) as real, yen as real) <= |ids| as real / 2.0
  {
    KeysAre(ids);
    UnitsSumIsAttributed(events, ids, rows);
    var base := ShareBase(events, ids);
    var q := YenQuotas(events, ids, yen, base);
    YenQuotasAddUp(events, ids, yen, base);
    assert Yens(rows) == RoundAll(q);
    RoundedSumDrift(q);
  }

  /** With no attributed unit every row shows zero yen. */
  lemma NoUnitsNoYen(events: seq<Event>, ids: seq<Text>, yen: nat, used: nat, rows: seq<CostRow>, i: nat)
    requires IsTable(events, ids, yen, used, rows) && i < |rows| && rows[i].units == 0
    ensures rows[i].yen == 0
  {
    assert 0.0 / ShareBase(events, ids) as real == 0.0;
  }

  /**
    What the table shares out is the headline's overage if and only if a meter was
    reported or the audit count stays within the quota. Otherwise the headline
    charges for the audit count and the table shares out nothing.
   */
  lemma TableSharesHeadline(plan: Plan, reported: Option<real>, events: seq<Event>)
    ensures SharedYen(plan, reported) == HeadlineYen(plan, reported, events)
       <==> WholeUnits(reported) > 0 || MeteredCount(events) <= Quota(plan)
    ensures WholeUnits(reported) == 0 ==> SharedYen(plan, reported) == 0
  {
  }

  lemma {:induction false} NoUnitsAnywhere(rows: seq<CostRow>)
    requires UnitsSum(rows) <= 0
    ensures UnitsSum(rows) == 0 && forall row <- rows :: row.units == 0
  {
    if rows != [] {
      UnitsSumNonNegative(rows[..|rows| - 1]);
      NoUnitsAnywhere(rows[..|rows| - 1]);
    }
  }

  lemma {:induction false} UnitsSumNonNegative(rows: seq<CostRow>)
    ensures UnitsSum(rows) >= 0
  {
    if rows != [] { UnitsSumNonNegative(rows[..|rows| - 1]); }
  }

  /** Nothing attributed or nothing to share out: the table's yen are nought. */
  lemma NothingShared(events: seq<Event>, ids: seq<Text>, yen: nat, used: nat, rows: seq<CostRow>)
    requires IsTable(events, ids, yen, used, rows) && (UnitsSum(rows) <= 0 || yen == 0)
    ensures Sum(Yens(rows)) == 0
  {
    if UnitsSum(rows) <= 0 { NoUnitsAnywhere(rows); }
    forall i | 0 <= i < |rows|
      ensures rows[i].yen == 0
    {
      if yen > 0 { NoUnitsNoYen(events, ids, yen, used, rows, i); }
    }
    EqualSum(Yens(rows), 0);
  }

  /**
    The table's yen come within half a yen per employee of the headline exactly when
    a meter was reported and a unit is attributed to somebody listed, or the headline
    itself is no more than that. Otherwise the table shares out nothing at all.
   */
  lemma YenNearHeadline(plan: Plan, reported: Option<real>, events: seq<Event>, ids: seq<Text>, rows: seq<CostRow>)
    requires Distinct(ids) && IsTable(events, ids, SharedYen(plan, reported), DisplayUsed(reported, events), rows)
    ensures Distance(Sum(Yens(rows)) as real, HeadlineYen(plan, reported, events) as real) <= |ids| as real / 2.0
       <==> || (WholeUnits(reported) > 0 && UnitsSum(rows) > 0)
            || 2 * HeadlineYen(plan, reported, events) <= |ids|
    ensures !(WholeUnits(reported) > 0 && UnitsSum(rows) > 0) ==> Sum(Yens(rows)) == 0
  {
    var yen, used := SharedYen(plan, reported), DisplayUsed(reported, events);
    TableSharesHeadline(plan, reported, events);
    if WholeUnits(reported) > 0 && UnitsSum(rows) > 0 {
      YenWithinHalf(events, ids, yen, used, rows);
    } else {
      NothingShared(events, ids, yen, used, rows);
    }
  }

  function ShareSum(rows: seq<CostRow>): real {
    if rows == [] then 0.0 else ShareSum(rows[..|rows| - 1]) + rows[|rows| - 1].share
  }

  /** Each row's share is its units over `base`. */
  ghost predicate SharesOver(rows: seq<CostRow>, base: real) {
    forall i | 0 <= i < |rows| :: rows[i].share * base == rows[i].units as real
  }

  lemma {:induction false} SharesInProportion(rows: seq<CostRow>, base: real)
    requires SharesOver(rows, base)
    ensures ShareSum(rows) * base == UnitsSum(rows) as real
  {
    if rows != [] {
      var n := |rows| - 1;
      SharesInProportion(rows[..n], base);
      AddProducts(ShareSum(rows[..n]), rows[n].share, base);
    }
  }

  lemma SharesOverBase(events: seq<Event>, ids: seq<Text>, yen: nat, used: nat, rows: seq<CostRow>)
    requires IsTable(events, ids, yen, used, rows) && used > 0
    ensures SharesOver(rows, ShareBase(events, ids) as real)
  {
    forall i | 0 <= i < |rows|
      ensures rows[i].share * ShareBase(events, ids) as real == rows[i].units as real
    {
      DivideMultiply(rows[i].units as real, ShareBase(events, ids) as real);
    }
  }

  lemma BaseIsUnits(events: seq<Event>, ids: seq<Text>, yen: nat, used: nat, rows: seq<CostRow>)
    requires Distinct(ids) && IsTable(events, ids, yen, used, rows) && UnitsSum(rows) > 0
    ensures ShareBase(events, ids) == UnitsSum(rows)
  {
    KeysAre(ids);
    UnitsSumIsAttributed(events, ids, rows);
  }

  lemma SharesMakeOne(rows: seq<CostRow>, base: real)
    requires SharesOver(rows, base) && base > 0.0 && base == UnitsSum(rows) as real
    ensures ShareSum(rows) == 1.0
  {
    SharesInProportion(rows, base);
    CancelFactor(ShareSum(rows), base, base, 1.0);
  }

  /** Shares are in proportion to units and add up to one, once a unit is attributed and anything is used. */
  lemma SharesAddUp(events: seq<Event>, ids: seq<Text>, yen: nat, used: nat, rows: seq<CostRow>) returns (units: real)
    requires Distinct(ids) && IsTable(events, ids, yen, used, rows) && used > 0 && UnitsSum(rows) > 0
    ensures units == UnitsSum(rows) as real && SharesOver(rows, units) && ShareSum(rows) == 1.0
  {
    units := ShareBase(events, ids) as real;
    BaseIsUnits(events, ids, yen, used, rows);
    SharesOverBase(events, ids, yen, used, rows);
    SharesMakeOne(rows, units);
  }
}
