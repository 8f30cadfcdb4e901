/**
  The spend gate for orders, and its safety when it is consulted over a whole run
  of orders whose executed amounts feed the running totals.
 */
module SpendGate {
  import opened Options
  import opened Numbers

  datatype Policy = AlwaysHuman | RiskBased | Auto

  /** Caps in yen; a day or month cap may be missing. */
  datatype Limits = Limits(maxPerOrder: Num, maxPerDay: Option<Num>, maxPerMonth: Option<Num>,
                           firstOrderRequiresHuman: Option<bool>)

  datatype Decision = Allow | NeedsApproval | Deny

  datatype Reason =
    | MissingLimits | AlwaysHumanPolicy | FirstOrder | MaxPerOrderZero | OverPerOrder
    | OverPerDay | OverPerMonth | InvalidAmount | WithinLimits | AutoPolicy

  datatype Request = Request(amount: Num, limits: Option<Limits>, policy: Policy, isFirst: Option<bool>,
                             spentToday: Option<Num>, spentThisMonth: Option<Num>)

  predicate IsAmount(n: Num) {
    n.Finite? && n.value >= 0.0
  }

  /** The cap is set, finite and positive, and what was spent plus the amount exceeds it. */
  predicate OverCap(cap: Option<Num>, spent: Option<Num>, amount: Num) {
    && cap.Some? && cap.value.Finite? && cap.value.value > 0.0
    && Greater(Add(spent.GetOr(Finite(0.0)), amount), cap.value)
  }

  function EvaluateSpend(r: Request): (Decision, Reason) {
    if !IsAmount(r.amount) then (Deny, InvalidAmount)
    else if r.policy == AlwaysHuman then (NeedsApproval, AlwaysHumanPolicy)
    else if r.limits.None? then (NeedsApproval, MissingLimits)
    else
      var limits := r.limits.value;
      if r.isFirst.GetOr(true) && limits.firstOrderRequiresHuman.GetOr(true) then (NeedsApproval, FirstOrder)
      else if !IsAmount(limits.maxPerOrder) then (NeedsApproval, MissingLimits)
      else if limits.maxPerOrder.value == 0.0 then (Deny, MaxPerOrderZero)
      else if Greater(r.amount, limits.maxPerOrder) then (NeedsApproval, OverPerOrder)
      else if OverCap(limits.maxPerDay, r.spentToday, r.amount) then (NeedsApproval, OverPerDay)
      else if OverCap(limits.maxPerMonth, r.spentThisMonth, r.amount) then (NeedsApproval, OverPerMonth)
      else if r.policy == Auto then (Allow, AutoPolicy)
      else (Allow, WithinLimits)
  }

  /** A cap counts when it is a finite positive number. */
  predicate Within(total: real, cap: Option<Num>) {
    cap.Some? && cap.value.Finite? && cap.value.value > 0.0 ==> total <= cap.value.value
  }

  /**
    What was spent, with the amount on top, is within a cap that counts. Nothing
    was spent when no total is given; a total that is not a number is within any cap.
   */
  predicate Fits(total: Option<Num>, amount: real, cap: Option<Num>) {
    match total.GetOr(Finite(0.0))
    case Finite(x) => Within(x + amount, cap)
    case PosInf => !(cap.Some? && cap.value.Finite? && cap.value.value > 0.0)
    case NegInf => true
    case NaN => true
  }

  /** A human confirms unless the policy lets it be and the order is known not to be a first one, or not to need it. */
  predicate NeedsNoHuman(limits: Limits, policy: Policy, isFirst: Option<bool>) {
    policy != AlwaysHuman && (isFirst == Some(false) || limits.firstOrderRequiresHuman == Some(false))
  }

  /**
    In plain arithmetic: an order goes through by itself exactly when its amount is
    finite, not negative and not over the cap per order, the totals with it are not
    over the caps that count, and no human has to confirm. It is refused exactly
    when its amount is unsound or a zero cap per order decides; otherwise a human
    is asked.
   */
  lemma DecisionExactly(r: Request)
    ensures EvaluateSpend(r).0 == Allow
       <==> && r.amount.Finite? && r.amount.value >= 0.0
            && r.limits.Some? && NeedsNoHuman(r.limits.value, r.policy, r.isFirst)
            && r.limits.value.maxPerOrder.Finite? && r.limits.value.maxPerOrder.value > 0.0
            && r.amount.value <= r.limits.value.maxPerOrder.value
            && Fits(r.spentToday, r.amount.value, r.limits.value.maxPerDay)
            && Fits(r.spentThisMonth, r.amount.value, r.limits.value.maxPerMonth)
    ensures EvaluateSpend(r).0 == Deny
       <==> || !r.amount.Finite? || r.amount.value < 0.0
            || (r.limits.Some? && NeedsNoHuman(r.limits.value, r.policy, r.isFirst)
                && r.limits.value.maxPerOrder == Finite(0.0))
  {
  }

  /** The reason names what is the case, the day's cap before the month's. */
  lemma ReasonIsTrue(r: Request)
    ensures var (d, why) := EvaluateSpend(r);
      && (why == InvalidAmount <==> !r.amount.Finite? || r.amount.value < 0.0)
      && (why == AlwaysHumanPolicy <==> r.amount.Finite? && r.amount.value >= 0.0 && r.policy == AlwaysHuman)
      && (why == FirstOrder ==> r.limits.Some? && !NeedsNoHuman(r.limits.value, r.policy, r.isFirst))
      && (why == MissingLimits ==>
            r.limits.None? || !r.limits.value.maxPerOrder.Finite? || r.limits.value.maxPerOrder.value < 0.0)
      && (why == MaxPerOrderZero ==> r.limits.Some? && r.limits.value.maxPerOrder == Finite(0.0))
      && (why == OverPerOrder ==> r.limits.Some? && !Within(r.amount.value, Some(r.limits.value.maxPerOrder)))
      && (why == OverPerDay ==> r.limits.Some? && !Fits(r.spentToday, r.amount.value, r.limits.value.maxPerDay))
      && (why == OverPerMonth ==>
            && r.limits.Some? && !Fits(r.spentThisMonth, r.amount.value, r.limits.value.maxPerMonth)
            && Fits(r.spentToday, r.amount.value, r.limits.value.maxPerDay))
      && (d == Allow <==> why == (if r.policy == Auto then AutoPolicy else WithinLimits))
  {
  }

  function Severity(d: Decision): nat {
    match d case Allow => 0 case NeedsApproval => 1 case Deny => 2
  }

  predicate NoLess(a: Option<Num>, b: Option<Num>) {
    var x, y := a.GetOr(Finite(0.0)), b.GetOr(Finite(0.0));
    IsAmount(x) && IsAmount(y) && x.value <= y.value
  }

  /** A larger amount, or larger totals so far, never get a milder answer. */
  lemma SeverityMonotone(a: Request, b: Request)
    requires b == a.(amount := b.amount, spentToday := b.spentToday, spentThisMonth := b.spentThisMonth)
    requires NoLess(Some(a.amount), Some(b.amount))
    requires NoLess(a.spentToday, b.spentToday) && NoLess(a.spentThisMonth, b.spentThisMonth)
    ensures Severity(EvaluateSpend(a).0) <= Severity(EvaluateSpend(b).0)
  {
  }

  /** A total that is not a number switches the cap it belongs to off: the answer is as if no cap were set. */
  lemma NotANumberLiftsCaps(r: Request)
    requires r.limits.Some?
    ensures r.spentToday == Some(NaN)
        ==> EvaluateSpend(r) == EvaluateSpend(r.(limits := Some(r.limits.value.(maxPerDay := None))))
    ensures r.spentThisMonth == Some(NaN)
        ==> EvaluateSpend(r) == EvaluateSpend(r.(limits := Some(r.limits.value.(maxPerMonth := None))))
  {
    assert Add(NaN, r.amount) == NaN;
  }

  // ----- normalising stored limits -----

  /**
    A stored property as JSON has it: missing, null, the empty string, a number, or
    something else with what `Number` makes of it.
   */
  datatype Field = Undefined | Null | Blank | Given(value: Num) | Other(number: Num)

  /** What is stored under the limits: an object, nothing, or another value that is truthy. */
  datatype Stored =
    | Nothing
    | NotAnObject
    | Object(maxPerOrder: Field, maxPerDay: Field, maxPerMonth: Field, firstOrderRequiresHuman: Option<bool>)

  const DEFAULT_PER_ORDER := Finite(3000.0)

  /** `Number(...)` of a property. */
  function ToNumber(f: Field): Num {
    match f
    case Undefined => NaN
    case Null => Finite(0.0)
    case Blank => Finite(0.0)
    case Given(n) => n
    case Other(n) => n
  }

  /** A day or month cap as the gate reads it from the stored object: anything but a number is no cap. */
  function StoredCap(f: Field): Option<Num> {
    if f.Given? then Some(f.value) else None
  }

  /** The stored value read as it is. */
  function AsStored(raw: Stored): Option<Limits> {
    match raw
    case Nothing => None
    case NotAnObject => Some(Limits(NaN, None, None, None))
    case Object(order, day, month, first) => Some(Limits(ToNumber(order), StoredCap(day), StoredCap(month), first))
  }

  function NormalizeCap(f: Field): Option<Num> {
    if f.Undefined? || f.Null? || f.Blank? then None else Some(ToNumber(f))
  }

  function NormalizeSpendLimits(raw: Stored): Option<Limits> {
    match raw
    case Nothing => None
    case NotAnObject => None
    case Object(order, day, month, first) =>
      var maxPerOrder := ToNumber(if order.Undefined? || order.Null? then Given(DEFAULT_PER_ORDER) else order);
      Some(Limits(if maxPerOrder.Finite? then maxPerOrder else DEFAULT_PER_ORDER,
                  NormalizeCap(day), NormalizeCap(month), Some(first.GetOr(true))))
  }

  /** The order gets as far as the cap per order. */
  predicate ReachesOrderCap(r: Request, raw: Stored) {
    && IsAmount(r.amount) && r.policy != AlwaysHuman
    && raw.Object? && !(r.isFirst.GetOr(true) && raw.firstOrderRequiresHuman.GetOr(true))
  }

  /** Over the cap of the day or of the month. */
  predicate OverTotals(day: Option<Num>, month: Option<Num>, r: Request) {
    OverCap(day, r.spentToday, r.amount) || OverCap(month, r.spentThisMonth, r.amount)
  }

  predicate OverStored(raw: Stored, r: Request)
    requires raw.Object?
  {
    OverTotals(StoredCap(raw.maxPerDay), StoredCap(raw.maxPerMonth), r)
  }

  predicate OverNormalized(raw: Stored, r: Request)
    requires raw.Object?
  {
    OverTotals(NormalizeCap(raw.maxPerDay), NormalizeCap(raw.maxPerMonth), r)
  }

  ghost predicate KeepsDecision(r: Request, raw: Stored) {
    EvaluateSpend(r.(limits := AsStored(raw))).0 == EvaluateSpend(r.(limits := NormalizeSpendLimits(raw))).0
  }

  /** A cap per order is stored. */
  predicate HasOrderCap(raw: Stored)
    requires raw.Object?
  {
    !raw.maxPerOrder.Undefined? && !raw.maxPerOrder.Null? && ToNumber(raw.maxPerOrder).Finite?
  }

  /**
    Normalising keeps a decision exactly when the order does not get as far as the
    cap per order; or that cap is stored and either decides, or leaves the order over
    no other cap unless over one the gate reads from the stored object too; or the
    cap is supplied where there was none (and not null, which refuses), and the order
    goes beyond it or over another cap.
   */
  lemma NormalizeKeepsDecision(r: Request, raw: Stored)
    ensures KeepsDecision(r, raw)
       <==> || !ReachesOrderCap(r, raw)
            || (HasOrderCap(raw)
                && (ToNumber(raw.maxPerOrder).value <= 0.0
                    || r.amount.value > ToNumber(raw.maxPerOrder).value
                    || (OverNormalized(raw, r) ==> OverStored(raw, r))))
            || (!HasOrderCap(raw) && !raw.maxPerOrder.Null?
                && (r.amount.value > DEFAULT_PER_ORDER.value || OverNormalized(raw, r)))
  {
  }

  /** A cap that is not stored as a number but reads as one that counts. */
  predicate TextCap(f: Field) {
    f.Other? && f.number.Finite? && f.number.value > 0.0
  }

  /** The stored value and the normalised one get the same decision for every order. */
  ghost predicate KeepsDecisions(raw: Stored) {
    forall r :: KeepsDecision(r, raw)
  }

  /** An order just at the cap per order, with totals that reach the text cap and no other. */
  lemma TextCapChangesDecision(raw: Stored) returns (r: Request)
    requires raw.Object? && HasOrderCap(raw) && ToNumber(raw.maxPerOrder).value > 0.0
    requires TextCap(raw.maxPerDay) || TextCap(raw.maxPerMonth)
    ensures !KeepsDecision(r, raw)
  {
    var amount := ToNumber(raw.maxPerOrder);
    var none := Some(Finite(-amount.value));
    if TextCap(raw.maxPerDay) {
      r := Request(amount, None, RiskBased, Some(false), Some(raw.maxPerDay.number), none);
    } else {
      r := Request(amount, None, RiskBased, Some(false), none, Some(raw.maxPerMonth.number));
    }
    NormalizeKeepsDecision(r, raw);
    assert OverNormalized(raw, r) && !OverStored(raw, r);
  }

  /** An order that the cap supplied for a missing or null one turns from asked or refused into allowed. */
  lemma SuppliedCapChangesDecision(raw: Stored) returns (r: Request)
    requires raw.Object? && !HasOrderCap(raw)
    ensures !KeepsDecision(r, raw)
  {
    r := Request(Finite(0.0), None, RiskBased, Some(false), None, None);
    ZeroIsNotOver(NormalizeCap(raw.maxPerDay));
    ZeroIsNotOver(NormalizeCap(raw.maxPerMonth));
    NormalizeKeepsDecision(r, raw);
  }

  lemma ZeroIsNotOver(cap: Option<Num>)
    ensures !OverCap(cap, None, Finite(0.0))
  {
    assert Add(Finite(0.0), Finite(0.0)) == Finite(0.0);
  }

  /**
    Normalising keeps all decisions exactly when there is no object, or a cap per
    order is stored which is not positive, or one is stored and no day or month cap
    is a text that reads as a positive number.
   */
  lemma NormalizeKeepsDecisions(raw: Stored)
    ensures KeepsDecisions(raw)
       <==> !raw.Object?
            || (HasOrderCap(raw)
                && (ToNumber(raw.maxPerOrder).value <= 0.0 || (!TextCap(raw.maxPerDay) && !TextCap(raw.maxPerMonth))))
  {
    if raw.Object? && !HasOrderCap(raw) {
      var r := SuppliedCapChangesDecision(raw);
    } else if raw.Object? && ToNumber(raw.maxPerOrder).value > 0.0
              && (TextCap(raw.maxPerDay) || TextCap(raw.maxPerMonth)) {
      var r := TextCapChangesDecision(raw);
    } else {
      forall r
        ensures KeepsDecision(r, raw)
      {
        NormalizeKeepsDecision(r, raw);
      }
    }
  }

  // ----- runs -----

  /** An order that reaches the gate, and whether a human approves it when asked. */
  datatype Order = Order(day: int, month: int, amount: Num, isFirst: Option<bool>, approved: bool)

  /** A booked order; `first` is what the gate took for the first-order flag. */
  datatype Entry = Entry(day: int, month: int, amount: real, first: bool, automatic: bool)

  function Total(ledger: seq<Entry>, p: Entry -> bool): real {
    if ledger == [] then 0.0
    else Total(ledger[..|ledger| - 1], p) + if p(ledger[|ledger| - 1]) then ledger[|ledger| - 1].amount else 0.0
  }

  function DayTotal(ledger: seq<Entry>, day: int): real {
    Total(ledger, (e: Entry) => e.day == day)
  }

  function MonthTotal(ledger: seq<Entry>, month: int): real {
    Total(ledger, (e: Entry) => e.month == month)
  }

  function RequestFor(limits: Option<Limits>, policy: Policy, ledger: seq<Entry>, o: Order): Request {
    Request(o.amount, limits, policy, o.isFirst,
            Some(Finite(DayTotal(ledger, o.day))), Some(Finite(MonthTotal(ledger, o.month))))
  }

  /** Executes an allowed order, or one a human approves when asked; books it in either case. */
  function Execute(limits: Option<Limits>, policy: Policy, ledger: seq<Entry>, o: Order): seq<Entry> {
    var d := EvaluateSpend(RequestFor(limits, policy, ledger, o)).0;
    if o.amount.Finite? && (d == Allow || (d == NeedsApproval && o.approved))
    then ledger + [Entry(o.day, o.month, o.amount.value, o.isFirst.GetOr(true), d == Allow)]
    else ledger
  }

  function RunOrders(limits: Option<Limits>, policy: Policy, orders: seq<Order>): seq<Entry> {
    if orders == [] then []
    else Execute(limits, policy, RunOrders(limits, policy, orders[..|orders| - 1]), orders[|orders| - 1])
  }

  /** What holds right after the `k`-th entry was booked automatically. */
  ghost predicate SafeEntry(limits: Option<Limits>, policy: Policy, ledger: seq<Entry>, k: nat)
    requires k < |ledger|
  {
    var e, after := ledger[k], ledger[..k + 1];
    && e.amount >= 0.0
    && (e.automatic ==>
          && policy != AlwaysHuman && limits.Some?
          && !(e.first && limits.value.firstOrderRequiresHuman.GetOr(true))
          && limits.value.maxPerOrder.Finite? && e.amount <= limits.value.maxPerOrder.value
          && Within(DayTotal(after, e.day), limits.value.maxPerDay)
          && Within(MonthTotal(after, e.month), limits.value.maxPerMonth))
  }

  ghost predicate SafeLedger(limits: Option<Limits>, policy: Policy, ledger: seq<Entry>) {
    forall k | 0 <= k < |ledger| :: SafeEntry(limits, policy, ledger, k)
  }

  lemma TotalNext(ledger: seq<Entry>, e: Entry, p: Entry -> bool)
    ensures Total(ledger + [e], p) == Total(ledger, p) + if p(e) then e.amount else 0.0
  {
    assert (ledger + [e])[..|ledger|] == ledger;
  }

  lemma ExecuteIsSafe(limits: Option<Limits>, policy: Policy, ledger: seq<Entry>, o: Order)
    requires Execute(limits, policy, ledger, o) != ledger
    ensures var after := Execute(limits, policy, ledger, o);
      |after| == |ledger| + 1 && SafeEntry(limits, policy, after, |ledger|)
  {
    var after := Execute(limits, policy, ledger, o);
    var e := after[|ledger|];
    assert after == ledger + [e] && after[..|ledger| + 1] == after;
    TotalNext(ledger, e, (x: Entry) => x.day == e.day);
    TotalNext(ledger, e, (x: Entry) => x.month == e.month);
  }

  /**
    In every run, right after each automatic order the day's and the month's totals,
    human-approved orders included, are within every positive cap, and the order
    itself within the cap per order; none happens without limits, under a policy
    that always asks a human, or as a first order that has to be confirmed.
   */
  lemma {:induction false} RunIsSafe(limits: Option<Limits>, policy: Policy, orders: seq<Order>)
    ensures SafeLedger(limits, policy, RunOrders(limits, policy, orders))
  {
    if orders != [] {
      var o := orders[|orders| - 1];
      RunIsSafe(limits, policy, orders[..|orders| - 1]);
      var before := RunOrders(limits, policy, orders[..|orders| - 1]);
      var ledger := Execute(limits, policy, before, o);
      if ledger != before {
        ExecuteIsSafe(limits, policy, before, o);
        forall k | 0 <= k < |before|
          ensures SafeEntry(limits, policy, ledger, k)
        {
          assert SafeEntry(limits, policy, before, k);
          assert ledger[..k + 1] == before[..k + 1] && ledger[k] == before[k];
        }
      }
    }
  }

  /** Within every cap on top of what is booked, and no human needed. */
  ghost predicate FitsAlone(limits: Option<Limits>, policy: Policy, ledger: seq<Entry>, o: Order) {
    && o.amount.Finite? && o.amount.value >= 0.0 && limits.Some? && NeedsNoHuman(limits.value, policy, o.isFirst)
    && limits.value.maxPerOrder.Finite? && 0.0 < limits.value.maxPerOrder.value
    && o.amount.value <= limits.value.maxPerOrder.value
    && Within(DayTotal(ledger, o.day) + o.amount.value, limits.value.maxPerDay)
    && Within(MonthTotal(ledger, o.month) + o.amount.value, limits.value.maxPerMonth)
  }

  /** No human can let it through: not an amount, or an unguarded order under a zero cap. */
  ghost predicate IsRefused(limits: Option<Limits>, policy: Policy, o: Order) {
    || !o.amount.Finite? || o.amount.value < 0.0
    || (limits.Some? && NeedsNoHuman(limits.value, policy, o.isFirst) && limits.value.maxPerOrder == Finite(0.0))
  }

  /**
    The other half, over any run: an order is booked without a human exactly when it
    fits the caps together with what was booked before it, so what is not booked
    alone would have exceeded one; the rest is booked when a human approves it.
   */
  lemma OrderBookedExactly(limits: Option<Limits>, policy: Policy, orders: seq<Order>, k: nat)
    requires k < |orders|
    ensures var (before, o) := (RunOrders(limits, policy, orders[..k]), orders[k]);
      var alone := FitsAlone(limits, policy, before, o);
      RunOrders(limits, policy, orders[..k + 1])
      == if alone || (o.approved && !IsRefused(limits, policy, o))
         then before + [Entry(o.day, o.month, o.amount.value, o.isFirst != Some(false), alone)]
         else before
  {
    var before, o := RunOrders(limits, policy, orders[..k]), orders[k];
    assert orders[..k + 1][..k] == orders[..k];
    if o.amount.Finite? { DecisionExactly(RequestFor(limits, policy, before, o)); }
  }

  lemma {:induction false} TotalMonotone(ledger: seq<Entry>, p: Entry -> bool, q: Entry -> bool)
    requires forall e <- ledger :: e.amount >= 0.0 && (p(e) ==> q(e))
    ensures 0.0 <= Total(ledger, p) <= Total(ledger, q)
  {
    if ledger != [] {
      TotalMonotone(ledger[..|ledger| - 1], p, q);
      assert ledger[|ledger| - 1] in ledger;
    }
  }

  /** Booked automatically on one day, up to the `n`-th entry: never more than the day's cap. */
  lemma {:induction false} AutomaticDaySpend(limits: Option<Limits>, policy: Policy, ledger: seq<Entry>,
                                             n: nat, day: int)
    requires n <= |ledger| && SafeLedger(limits, policy, ledger)
    requires limits.Some?
    ensures Within(Total(ledger[..n], (e: Entry) => e.automatic && e.day == day), limits.value.maxPerDay)
  {
    if n > 0 {
      var e := ledger[n - 1];
      AutomaticDaySpend(limits, policy, ledger, n - 1, day);
      assert ledger[..n] == ledger[..n - 1] + [e];
      TotalNext(ledger[..n - 1], e, (e: Entry) => e.automatic && e.day == day);
      assert SafeEntry(limits, policy, ledger, n - 1);
      if e.automatic && e.day == day {
        forall x | x in ledger[..n]
          ensures x.amount >= 0.0
        {
          var k :| 0 <= k < n && ledger[k] == x;
          assert SafeEntry(limits, policy, ledger, k);
        }
        TotalMonotone(ledger[..n], (e: Entry) => e.automatic && e.day == day, (e: Entry) => e.day == day);
      }
    }
  }

  lemma {:induction false} AutomaticMonthSpend(limits: Option<Limits>, policy: Policy, ledger: seq<Entry>,
                                               n: nat, month: int)
    requires n <= |ledger| && SafeLedger(limits, policy, ledger)
    requires limits.Some?
    ensures Within(Total(ledger[..n], (e: Entry) => e.automatic && e.month == month), limits.value.maxPerMonth)
  {
    if n > 0 {
      var e := ledger[n - 1];
      AutomaticMonthSpend(limits, policy, ledger, n - 1, month);
      assert ledger[..n] == ledger[..n - 1] + [e];
      TotalNext(ledger[..n - 1], e, (e: Entry) => e.automatic && e.month == month);
      assert SafeEntry(limits, policy, ledger, n - 1);
      if e.automatic && e.month == month {
        forall x | x in ledger[..n]
          ensures x.amount >= 0.0
        {
          var k :| 0 <= k < n && ledger[k] == x;
          assert SafeEntry(limits, policy, ledger, k);
        }
        TotalMonotone(ledger[..n], (e: Entry) => e.automatic && e.month == month, (e: Entry) => e.month == month);
      }
    }
  }

  /** Over any run, what is spent without a human on one day or in one month stays within the cap. */
  lemma AutomaticSpendIsCapped(limits: Limits, policy: Policy, orders: seq<Order>, day: int, month: int)
    ensures var ledger := RunOrders(Some(limits), policy, orders);
      && Within(Total(ledger, (e: Entry) => e.automatic && e.day == day), limits.maxPerDay)
      && Within(Total(ledger, (e: Entry) => e.automatic && e.month == month), limits.maxPerMonth)
  {
    var ledger := RunOrders(Some(limits), policy, orders);
    RunIsSafe(Some(limits), policy, orders);
    AutomaticDaySpend(Some(limits), policy, ledger, |ledger|, day);
    AutomaticMonthSpend(Some(limits), policy, ledger, |ledger|, month);
    assert ledger[..|ledger|] == ledger;
  }
}
