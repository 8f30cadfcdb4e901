/**
  The live dashboard: audit events bucketed over a time window, attributed to
  employees, and priced. The window's start, which the program takes from the
  clock, is a parameter.
 */
module LiveMetrics {
  import opened Options
  import opened CodeUnits
  import opened Counting

  datatype Action =
    | ApprovalResolved | ToolInvoke | ApprovalRequested | CredentialIssued
    | EmployeeCreated | EmployeeUpdated | GatewayLinkChanged | OtherAction

  /**
    An audit event: when (unless the date cannot be parsed), and what its metadata
    says about a rejection, about being a metered confirm action, and about not
    being billable.
   */
  datatype Event = Event(
    employee: Option<Text>, action: Action, at: Option<int>,
    rejected: bool, gatedConfirm: bool, notBillable: bool)

  datatype Kind = Acting | Approving | Denying

  /** `buckets` intervals of `bucketMs` milliseconds from `startMs` on. */
  datatype Window = Window(buckets: nat, startMs: int, bucketMs: int)

  predicate ValidWindow(w: Window) {
    w.buckets > 0 && w.bucketMs > 0
  }

  function Classify(ev: Event): Option<Kind> {
    if ev.action == ApprovalResolved then
      if ev.rejected then Some(Denying) else Some(Approving)
    else if ev.action == OtherAction then None
    else Some(Acting)
  }

  predicate InWindow(w: Window, ev: Event) {
    ev.at.Some? && ev.at.value >= w.startMs
  }

  /** The bucket of an event in the window; events after its end go to the last one. */
  function BucketOf(w: Window, ev: Event): nat
    requires ValidWindow(w) && InWindow(w, ev)
  {
    var i := (ev.at.value - w.startMs) / w.bucketMs;
    if i > w.buckets - 1 then w.buckets - 1 else if i < 0 then 0 else i
  }

  predicate InBucket(w: Window, ev: Event, i: nat)
    requires ValidWindow(w)
  {
    InWindow(w, ev) && BucketOf(w, ev) == i
  }

  /** In the `i`-th interval of the window; the last one has no end. */
  predicate LandsIn(w: Window, ev: Event, i: nat)
    requires ValidWindow(w)
  {
    && i < w.buckets && ev.at.Some? && w.startMs + i * w.bucketMs <= ev.at.value
    && (ev.at.value < w.startMs + (i + 1) * w.bucketMs || i == w.buckets - 1)
  }

  lemma QuotientBounds(x: int, y: int)
    requires y > 0
    ensures x / y * y <= x < (x / y + 1) * y
  {
  }

  lemma ProductMonotone(i: int, j: int, y: int)
    requires i <= j && y > 0
    ensures i * y <= j * y
  {
  }

  /** The program's division finds the interval an event of the window lands in, and no other. */
  lemma BucketIsInterval(w: Window, ev: Event, i: nat)
    requires ValidWindow(w)
    ensures InBucket(w, ev, i) <==> LandsIn(w, ev, i)
  {
    if i < w.buckets { ProductMonotone(0, i, w.bucketMs); }
    if InWindow(w, ev) {
      var x := ev.at.value - w.startMs;
      var q := x / w.bucketMs;
      QuotientBounds(x, w.bucketMs);
      if i <= q { ProductMonotone(i, q, w.bucketMs); } else { ProductMonotone(q + 1, i, w.bucketMs); }
      if i + 1 <= q { ProductMonotone(i + 1, q, w.bucketMs); } else { ProductMonotone(q + 1, i + 1, w.bucketMs); }
    }
  }

  /** Attributed to the employee with id `id`; events without an employee belong to nobody. */
  predicate Of(ev: Event, id: Text) {
    ev.employee == Some(id) && id != []
  }

  predicate Known(ev: Event, ids: seq<Text>) {
    Truthy(ev.employee) && ev.employee.value in ids
  }

  // ----- histograms -----

  /** How many of the events that `p` selects land in bucket `i`. */
  function Cell(w: Window, events: seq<Event>, i: nat, p: Event -> bool): nat
    requires ValidWindow(w)
  {
    CountIf(events, (ev: Event) => p(ev) && InBucket(w, ev, i))
  }

  function CellSum(w: Window, events: seq<Event>, k: nat, p: Event -> bool): nat
    requires ValidWindow(w)
  {
    if k == 0 then 0 else CellSum(w, events, k - 1, p) + Cell(w, events, k - 1, p)
  }

  lemma {:induction false} CellSumIsCount(w: Window, events: seq<Event>, k: nat, p: Event -> bool)
    requires ValidWindow(w) && k <= w.buckets
    ensures CellSum(w, events, k, p)
         == CountIf(events, (ev: Event) => p(ev) && InWindow(w, ev) && BucketOf(w, ev) < k)
  {
    if k == 0 {
      CountZero(events, (ev: Event) => p(ev) && InWindow(w, ev) && BucketOf(w, ev) < 0);
    } else {
      CellSumIsCount(w, events, k - 1, p);
      CountSplit(events, (ev: Event) => p(ev) && InWindow(w, ev) && BucketOf(w, ev) < k,
                 (ev: Event) => p(ev) && InWindow(w, ev) && BucketOf(w, ev) < k - 1,
                 (ev: Event) => p(ev) && InBucket(w, ev, k - 1));
    }
  }

  /** The cells of a histogram add up to the selected events in the window: none is lost, none counted twice. */
  lemma HistogramIsExact(w: Window, events: seq<Event>, p: Event -> bool)
    requires ValidWindow(w)
    ensures CellSum(w, events, w.buckets, p) == CountIf(events, (ev: Event) => p(ev) && InWindow(w, ev))
  {
    CellSumIsCount(w, events, w.buckets, p);
    CountSame(events, (ev: Event) => p(ev) && InWindow(w, ev) && BucketOf(w, ev) < w.buckets,
              (ev: Event) => p(ev) && InWindow(w, ev));
  }

  /** How many of the events that `p` selects fall in the `i`-th interval. */
  function TimedCell(w: Window, events: seq<Event>, i: nat, p: Event -> bool): nat
    requires ValidWindow(w)
  {
    CountIf(events, (ev: Event) => p(ev) && LandsIn(w, ev, i))
  }

  lemma CellIsTimed(w: Window, events: seq<Event>, i: nat, p: Event -> bool)
    requires ValidWindow(w)
    ensures Cell(w, events, i, p) == TimedCell(w, events, i, p)
  {
    forall ev <- events
      ensures InBucket(w, ev, i) == LandsIn(w, ev, i)
    {
      BucketIsInterval(w, ev, i);
    }
    CountSame(events, (ev: Event) => p(ev) && InBucket(w, ev, i), (ev: Event) => p(ev) && LandsIn(w, ev, i));
  }

  /** A histogram of appended event lists is the sum of theirs, and the order of events does not matter. */
  lemma HistogramOfEvents(w: Window, a: seq<Event>, b: seq<Event>, i: nat, p: Event -> bool)
    requires ValidWindow(w)
    ensures Cell(w, a + b, i, p) == Cell(w, a, i, p) + Cell(w, b, i, p)
    ensures multiset(a) == multiset(b) ==> Cell(w, a, i, p) == Cell(w, b, i, p)
  {
    CountConcat(a, b, (ev: Event) => p(ev) && InBucket(w, ev, i));
    if multiset(a) == multiset(b) {
      CountPermutation(a, b, (ev: Event) => p(ev) && InBucket(w, ev, i));
    }
  }

  lemma CellNext(w: Window, events: seq<Event>, k: nat, i: nat, p: Event -> bool)
    requires ValidWindow(w) && k < |events|
    ensures Cell(w, events[..k + 1], i, p)
         == Cell(w, events[..k], i, p) + if p(events[k]) && InBucket(w, events[k], i) then 1 else 0
  {
    CountNext(events, k, (ev: Event) => p(ev) && InBucket(w, ev, i));
  }

  // ----- attribution -----

  /** How many of the events that `p` selects belong to the employee. */
  function CountOf(events: seq<Event>, id: Text, p: Event -> bool): nat {
    CountIf(events, (ev: Event) => p(ev) && Of(ev, id))
  }

  lemma CountOfNext(events: seq<Event>, k: nat, id: Text, p: Event -> bool)
    requires k < |events|
    ensures CountOf(events[..k + 1], id, p)
         == CountOf(events[..k], id, p) + if p(events[k]) && Of(events[k], id) then 1 else 0
  {
    CountNext(events, k, (ev: Event) => p(ev) && Of(ev, id));
  }

  function AttributedSum(events: seq<Event>, ids: seq<Text>, p: Event -> bool): nat {
    if ids == [] then 0
    else AttributedSum(events, ids[..|ids| - 1], p) + CountOf(events, ids[|ids| - 1], p)
  }

  predicate Distinct(ids: seq<Text>) {
    forall i, j | 0 <= i < j < |ids| :: ids[i] != ids[j]
  }

  /** For distinct employees, what is attributed is exactly what belongs to one of them. */
  lemma {:induction false} AttributionIsExact(events: seq<Event>, ids: seq<Text>, p: Event -> bool)
    requires Distinct(ids)
    ensures AttributedSum(events, ids, p) == CountIf(events, (ev: Event) => p(ev) && Known(ev, ids))
  {
    if ids == [] {
      CountZero(events, (ev: Event) => p(ev) && Known(ev, []));
    } else {
      var before, id := ids[..|ids| - 1], ids[|ids| - 1];
      AttributionIsExact(events, before, p);
      assert forall x :: x in ids <==> x in before || x == id;
      assert id !in before;
      CountSplit(events, (ev: Event) => p(ev) && Known(ev, ids),
                 (ev: Event) => p(ev) && Known(ev, before), (ev: Event) => p(ev) && Of(ev, id));
    }
  }

  /** How many of the events that `p` selects belong to none of the employees. */
  function UnknownCount(events: seq<Event>, ids: seq<Text>, p: Event -> bool): nat {
    CountIf(events, (ev: Event) => p(ev) && !Known(ev, ids))
  }

  /** So the selected events are the attributed ones and those that belong to none of the employees. */
  lemma AttributedAndUnknown(events: seq<Event>, ids: seq<Text>, p: Event -> bool)
    requires Distinct(ids)
    ensures CountIf(events, p)
         == AttributedSum(events, ids, p) + UnknownCount(events, ids, p)
  {
    AttributionIsExact(events, ids, p);
    CountSplit(events, p, (ev: Event) => p(ev) && Known(ev, ids), (ev: Event) => p(ev) && !Known(ev, ids));
  }

  // ----- activity -----

  datatype Tally = Tally(actions: nat, approvals: nat, denies: nat)

  const NO_TALLY := Tally(0, 0, 0)

  function Bump(t: Tally, kind: Kind): Tally {
    match kind
    case Acting => t.(actions := t.actions + 1)
    case Approving => t.(approvals := t.approvals + 1)
    case Denying => t.(denies := t.denies + 1)
  }

  function Select(t: Tally, kind: Kind): nat {
    match kind
    case Acting => t.actions
    case Approving => t.approvals
    case Denying => t.denies
  }

  predicate IsKind(ev: Event, kind: Kind) {
    Classify(ev) == Some(kind)
  }

  /** Classified as `kind` and in the window: what the tables count. */
  predicate Seen(w: Window, ev: Event, kind: Kind) {
    IsKind(ev, kind) && InWindow(w, ev)
  }

  /** The events of one kind in one bucket. */
  function KindCell(w: Window, events: seq<Event>, i: nat, kind: Kind): nat
    requires ValidWindow(w)
  {
    Cell(w, events, i, (ev: Event) => IsKind(ev, kind))
  }

  /** The events of one kind in the window. */
  function KindCount(w: Window, events: seq<Event>, kind: Kind): nat {
    CountIf(events, (ev: Event) => Seen(w, ev, kind))
  }

  /** The events of one kind in the window that belong to the employee. */
  function EmployeeCount(w: Window, events: seq<Event>, id: Text, kind: Kind): nat {
    CountOf(events, id, (ev: Event) => Seen(w, ev, kind))
  }

  /** The events of one kind in the window that belong to none of the employees. */
  function UnattributedCount(w: Window, events: seq<Event>, ids: seq<Text>, kind: Kind): nat {
    UnknownCount(events, ids, (ev: Event) => Seen(w, ev, kind))
  }

  datatype Summary = Summary(id: Text, tally: Tally, approvalRate: real)

  datatype Activity = Activity(series: seq<Tally>, employees: seq<Summary>, totals: Tally, empty: bool)

  /** The counts of the events seen so far, per bucket and per employee. */
  ghost predicate SeriesCounts(w: Window, events: seq<Event>, series: seq<Tally>)
    requires ValidWindow(w)
  {
    && |series| == w.buckets
    && forall i, kind | 0 <= i < |series| :: Select(series[i], kind) == KindCell(w, events, i, kind)
  }

  function TimedKind(w: Window, events: seq<Event>, i: nat, kind: Kind): nat
    requires ValidWindow(w)
  {
    TimedCell(w, events, i, (ev: Event) => IsKind(ev, kind))
  }

  /** Every cell counts the actions, approvals and denials in its interval of time. */
  ghost predicate SeriesTimed(w: Window, events: seq<Event>, series: seq<Tally>)
    requires ValidWindow(w)
  {
    && |series| == w.buckets
    && forall i | 0 <= i < |series| ::
      && series[i].actions == TimedKind(w, events, i, Acting)
      && series[i].approvals == TimedKind(w, events, i, Approving)
      && series[i].denies == TimedKind(w, events, i, Denying)
  }

  lemma CountsAreTimed(w: Window, events: seq<Event>, series: seq<Tally>)
    requires ValidWindow(w) && SeriesCounts(w, events, series)
    ensures SeriesTimed(w, events, series)
  {
    forall i, kind | 0 <= i < |series|
      ensures Select(series[i], kind) == TimedKind(w, events, i, kind)
    {
      CellIsTimed(w, events, i, (ev: Event) => IsKind(ev, kind));
    }
  }

  ghost predicate EmployeeCounts(w: Window, events: seq<Event>, byEmp: map<Text, Tally>) {
    forall id, kind | id in byEmp :: Select(byEmp[id], kind) == EmployeeCount(w, events, id, kind)
  }

  lemma KindCellNext(w: Window, events: seq<Event>, k: nat, i: nat, kind: Kind)
    requires ValidWindow(w) && k < |events|
    ensures KindCell(w, events[..k + 1], i, kind)
         == KindCell(w, events[..k], i, kind) + if IsKind(events[k], kind) && InBucket(w, events[k], i) then 1 else 0
  {
    CellNext(w, events, k, i, (ev: Event) => IsKind(ev, kind));
  }

  /** The counts of one employee, field by field. */
  function EmployeeTally(w: Window, events: seq<Event>, id: Text): Tally {
    Tally(EmployeeCount(w, events, id, Acting), EmployeeCount(w, events, id, Approving),
          EmployeeCount(w, events, id, Denying))
  }

  lemma TalliesAre(w: Window, events: seq<Event>, byEmp: map<Text, Tally>)
    requires EmployeeCounts(w, events, byEmp)
    ensures forall id | id in byEmp :: byEmp[id] == EmployeeTally(w, events, id)
  {
    forall id, kind | id in byEmp
      ensures Select(byEmp[id], kind) == Select(EmployeeTally(w, events, id), kind)
    {
    }
    forall id | id in byEmp
      ensures byEmp[id] == EmployeeTally(w, events, id)
    {
      SameTally(byEmp[id], EmployeeTally(w, events, id));
    }
  }

  lemma SameTally(t: Tally, u: Tally)
    requires forall kind :: Select(t, kind) == Select(u, kind)
    ensures t == u
  {
    assert Select(t, Acting) == Select(u, Acting) && Select(t, Approving) == Select(u, Approving)
        && Select(t, Denying) == Select(u, Denying);
  }

  lemma EmployeeCountNext(w: Window, events: seq<Event>, k: nat, id: Text, kind: Kind)
    requires k < |events|
    ensures EmployeeCount(w, events[..k + 1], id, kind)
         == EmployeeCount(w, events[..k], id, kind) + if Seen(w, events[k], kind) && Of(events[k], id) then 1 else 0
  {
    CountOfNext(events, k, id, (ev: Event) => Seen(w, ev, kind));
  }

  /** An event that is not classified, or not in the window, moves no count. */
  lemma CountsUnmoved(w: Window, events: seq<Event>, k: nat, series: seq<Tally>, byEmp: map<Text, Tally>)
    requires ValidWindow(w) && k < |events|
    requires SeriesCounts(w, events[..k], series) && EmployeeCounts(w, events[..k], byEmp)
    requires !InWindow(w, events[k]) || Classify(events[k]).None?
    ensures SeriesCounts(w, events[..k + 1], series) && EmployeeCounts(w, events[..k + 1], byEmp)
  {
    forall i, kind | 0 <= i < |series|
      ensures Select(series[i], kind) == KindCell(w, events[..k + 1], i, kind)
    {
      KindCellNext(w, events, k, i, kind);
    }
    forall id, kind | id in byEmp
      ensures Select(byEmp[id], kind) == EmployeeCount(w, events[..k + 1], id, kind)
    {
      EmployeeCountNext(w, events, k, id, kind);
    }
  }

  /** The counts after `k + 1` events, from the counts after `k`. */
  lemma CountsMoved(w: Window, events: seq<Event>, k: nat, kind: Kind, idx: nat,
                    series: seq<Tally>, byEmp: map<Text, Tally>, series': seq<Tally>, byEmp': map<Text, Tally>)
    requires ValidWindow(w) && k < |events| && InWindow(w, events[k]) && Classify(events[k]) == Some(kind)
    requires idx == BucketOf(w, events[k]) && idx < |series|
    requires SeriesCounts(w, events[..k], series) && EmployeeCounts(w, events[..k], byEmp)
    requires series' == series[idx := Bump(series[idx], kind)]
    requires byEmp' == match events[k].employee
                       case Some(id) =>
                         if id != [] && id in byEmp then byEmp[id := Bump(byEmp[id], kind)] else byEmp
                       case None => byEmp
    ensures SeriesCounts(w, events[..k + 1], series') && EmployeeCounts(w, events[..k + 1], byEmp')
  {
    forall i, other | 0 <= i < |series|
      ensures Select(series'[i], other) == KindCell(w, events[..k + 1], i, other)
    {
      KindCellNext(w, events, k, i, other);
    }
    forall id, other | id in byEmp'
      ensures Select(byEmp'[id], other) == EmployeeCount(w, events[..k + 1], id, other)
    {
      EmployeeCountNext(w, events, k, id, other);
    }
  }

  /** The approved part of what was decided, and one when nothing was. */
  function Rate(t: Tally): (r: real)
    ensures 0.0 <= r <= 1.0
    ensures t.approvals + t.denies == 0 ==> r == 1.0
    ensures t.approvals + t.denies > 0 ==> r * (t.approvals + t.denies) as real == t.approvals as real
  {
    var denom := t.approvals + t.denies;
    if denom == 0 then 1.0 else t.approvals as real / denom as real
  }

  function FieldSum(series: seq<Tally>, kind: Kind): nat {
    if series == [] then 0 else FieldSum(series[..|series| - 1], kind) + Select(series[|series| - 1], kind)
  }

  lemma {:induction false} FieldSumIsCellSum(w: Window, events: seq<Event>, series: seq<Tally>, k: nat, kind: Kind)
    requires ValidWindow(w) && SeriesCounts(w, events, series) && k <= |series|
    ensures FieldSum(series[..k], kind) == CellSum(w, events, k, (ev: Event) => IsKind(ev, kind))
  {
    if k > 0 {
      assert series[..k][..k - 1] == series[..k - 1];
      FieldSumIsCellSum(w, events, series, k - 1, kind);
    }
  }

  method Totals(series: seq<Tally>) returns (t: Tally)
    ensures forall kind :: Select(t, kind) == FieldSum(series, kind)
  {
    t := NO_TALLY;
    for i := 0 to |series|
      invariant forall kind :: Select(t, kind) == FieldSum(series[..i], kind)
    {
      assert series[..i + 1][..i] == series[..i];
      t := Tally(t.actions + series[i].actions, t.approvals + series[i].approvals, t.denies + series[i].denies);
    }
    assert series[..|series|] == series;
  }

  /**
    Every cell of the series counts exactly the events of its kind in its interval
    of time, every employee row those of the window that are its own, and the
    totals all classified events of the window.
   */
  method BuildLiveActivity(w: Window, employees: seq<Text>, events: seq<Event>) returns (r: Activity)
    requires ValidWindow(w)
    ensures SeriesTimed(w, events, r.series)
    ensures |r.employees| == |employees|
    ensures forall i | 0 <= i < |employees| ::
      && r.employees[i].id == employees[i]
      && r.employees[i].tally == EmployeeTally(w, events, employees[i])
      && r.employees[i].approvalRate == Rate(r.employees[i].tally)
    ensures r.totals == Tally(KindCount(w, events, Acting), KindCount(w, events, Approving),
                              KindCount(w, events, Denying))
    ensures r.empty <==> r.totals == NO_TALLY
  {
    var series := new Tally[w.buckets](_ => NO_TALLY);
    var byEmp: map<Text, Tally> := map[];
    for i := 0 to |employees|
      invariant forall id :: id in byEmp <==> id in employees[..i]
      invariant forall id | id in byEmp :: byEmp[id] == NO_TALLY
    {
      byEmp := byEmp[employees[i] := NO_TALLY];
    }
    assert employees[..|employees|] == employees;
    var any := false;
    for k := 0 to |events|
      invariant SeriesCounts(w, events[..k], series[..])
      invariant EmployeeCounts(w, events[..k], byEmp)
      invariant forall id :: id in byEmp <==> id in employees
      invariant any <==> exists ev :: ev in events[..k] && InWindow(w, ev) && Classify(ev).Some?
    {
      var ev := events[k];
      assert events[..k + 1] == events[..k] + [ev];
      if ev.at.None? || ev.at.value < w.startMs {
        CountsUnmoved(w, events, k, series[..], byEmp);
        continue;
      }
      var idx := BucketOf(w, ev);
      var kind := Classify(ev);
      if kind.None? {
        CountsUnmoved(w, events, k, series[..], byEmp);
        continue;
      }
      any := true;
      ghost var seriesBefore, byEmpBefore := series[..], byEmp;
      series[idx] := Bump(series[idx], kind.value);
      if Truthy(ev.employee) && ev.employee.value in byEmp {
        byEmp := byEmp[ev.employee.value := Bump(byEmp[ev.employee.value], kind.value)];
      }
      assert series[..] == seriesBefore[idx := Bump(seriesBefore[idx], kind.value)];
      CountsMoved(w, events, k, kind.value, idx, seriesBefore, byEmpBefore, series[..], byEmp);
    }
    assert events[..|events|] == events;
    var summaries := seq(|employees|, i requires 0 <= i < |employees| && employees[i] in byEmp =>
      Summary(employees[i], byEmp[employees[i]], Rate(byEmp[employees[i]])));
    var totals := Totals(series[..]);
    TotalsAreExact(w, events, series[..], totals);
    CountsAreTimed(w, events, series[..]);
    TalliesAre(w, events, byEmp);
    EmptyExactly(w, events, totals);
    r := Activity(series[..], summaries, totals, !any);
  }

  lemma TotalsAreExact(w: Window, events: seq<Event>, series: seq<Tally>, totals: Tally)
    requires ValidWindow(w) && SeriesCounts(w, events, series)
    requires forall kind :: Select(totals, kind) == FieldSum(series, kind)
    ensures forall kind :: Select(totals, kind) == KindCount(w, events, kind)
  {
    forall kind
      ensures Select(totals, kind) == KindCount(w, events, kind)
    {
      assert series[..|series|] == series;
      FieldSumIsCellSum(w, events, series, |series|, kind);
      var p := (ev: Event) => IsKind(ev, kind);
      HistogramIsExact(w, events, p);
      CountSame(events, (ev: Event) => p(ev) && InWindow(w, ev), (ev: Event) => Seen(w, ev, kind));
    }
  }

  lemma EmptyExactly(w: Window, events: seq<Event>, totals: Tally)
    requires forall kind :: Select(totals, kind) == KindCount(w, events, kind)
    ensures totals == NO_TALLY <==> !exists ev :: ev in events && InWindow(w, ev) && Classify(ev).Some?
  {
    forall kind
      ensures Select(totals, kind) == 0 <==> forall ev <- events :: !Seen(w, ev, kind)
    {
      CountZero(events, (ev: Event) => Seen(w, ev, kind));
    }
    assert totals == NO_TALLY
      <==> Select(totals, Acting) == 0 && Select(totals, Approving) == 0 && Select(totals, Denying) == 0;
    forall ev | ev in events && InWindow(w, ev) && Classify(ev).Some?
      ensures totals != NO_TALLY
    {
      assert Select(totals, Classify(ev).value) != 0;
    }
  }

  /** Totals by what happened: resolved approvals are denied or approved, every other known action is an action. */
  lemma TotalsByAction(w: Window, events: seq<Event>)
    ensures KindCount(w, events, Denying)
         == CountIf(events, (ev: Event) => ev.action == ApprovalResolved && ev.rejected && InWindow(w, ev))
    ensures KindCount(w, events, Denying) + KindCount(w, events, Approving)
         == CountIf(events, (ev: Event) => ev.action == ApprovalResolved && InWindow(w, ev))
    ensures KindCount(w, events, Acting) + KindCount(w, events, Denying) + KindCount(w, events, Approving)
         == CountIf(events, (ev: Event) => ev.action != OtherAction && InWindow(w, ev))
  {
    CountSame(events, (ev: Event) => Seen(w, ev, Denying),
              (ev: Event) => ev.action == ApprovalResolved && ev.rejected && InWindow(w, ev));
    CountSplit(events, (ev: Event) => ev.action == ApprovalResolved && InWindow(w, ev),
               (ev: Event) => Seen(w, ev, Denying), (ev: Event) => Seen(w, ev, Approving));
    CountSplit(events, (ev: Event) => ev.action != OtherAction && InWindow(w, ev),
               (ev: Event) => Seen(w, ev, Acting), (ev: Event) => ev.action == ApprovalResolved && InWindow(w, ev));
  }

  function SummarySum(rows: seq<Summary>, kind: Kind): nat {
    if rows == [] then 0 else SummarySum(rows[..|rows| - 1], kind) + Select(rows[|rows| - 1].tally, kind)
  }

  lemma {:induction false} SummariesAddUp(w: Window, ids: seq<Text>, events: seq<Event>, rows: seq<Summary>, kind: Kind)
    requires |rows| == |ids|
    requires forall i | 0 <= i < |ids| :: Select(rows[i].tally, kind) == EmployeeCount(w, events, ids[i], kind)
    ensures SummarySum(rows, kind) == AttributedSum(events, ids, (ev: Event) => Seen(w, ev, kind))
  {
    if ids != [] {
      SummariesAddUp(w, ids[..|ids| - 1], events, rows[..|rows| - 1], kind);
    }
  }

  /** The employee table falls short of the totals by exactly the events nobody listed owns. */
  lemma TotalsMinusUnattributed(w: Window, ids: seq<Text>, events: seq<Event>, rows: seq<Summary>,
                                totals: Tally, kind: Kind)
    requires Distinct(ids) && |rows| == |ids|
    requires forall i | 0 <= i < |ids| :: Select(rows[i].tally, kind) == EmployeeCount(w, events, ids[i], kind)
    requires Select(totals, kind) == KindCount(w, events, kind)
    ensures Select(totals, kind)
         == SummarySum(rows, kind) + UnattributedCount(w, events, ids, kind)
  {
    SummariesAddUp(w, ids, events, rows, kind);
    AttributedAndUnknown(events, ids, (ev: Event) => Seen(w, ev, kind));
  }
}
