/**
  Limits on how often an employee may use a tool: normalising what was stored,
  the gate, and its safety over runs against the counters of the action log.
 */
module ActionGate {
  import opened Options
  import opened CodeUnits
  import opened Numbers

  /** The two numbers of a limit as `Number(...)` reads them; a missing one reads as NaN. */
  datatype Limit = Limit(perDay: Num, perMonth: Num)

  /** A stored value: an object with the two fields, or something else that may still be truthy. */
  datatype RawLimit = NotAnObject(truthy: bool) | Obj(limit: Limit)

  datatype Period = PerDay | PerMonth

  datatype Decision = Allow | NeedsApproval | Deny

  datatype Check = Check(period: Period, value: nat, count: nat)

  datatype Reason = LimitNotSet | WithinLimit | Reached(check: Check) | HardStop(check: Check)

  /** A positive integer, or nothing. */
  function ValidLimit(n: Num): (r: Option<nat>)
    ensures r.Some? ==> r.value > 0 && n == Finite(r.value as real)
    ensures r.None? ==> !(n.Finite? && n.value >= 1.0 && n.value == n.value.Floor as real)
  {
    if n.Finite? && n.value.Floor as real == n.value && n.value > 0.0 then Some(n.value.Floor) else None
  }

  function Clamp(count: int): nat {
    if count < 0 then 0 else count
  }

  /** The limits that are set, day before month, each with its count. */
  function Checks(limit: Limit, today: int, month: int): seq<Check> {
    (match ValidLimit(limit.perDay) case Some(v) => [Check(PerDay, v, Clamp(today))] case None => [])
    + (match ValidLimit(limit.perMonth) case Some(v) => [Check(PerMonth, v, Clamp(month))] case None => [])
  }

  /** The first check whose count has come to `factor` times its limit. */
  function FirstAt(checks: seq<Check>, factor: nat): Option<Check> {
    if checks == [] then None
    else if checks[0].count >= checks[0].value * factor then Some(checks[0])
    else FirstAt(checks[1..], factor)
  }

  function EvaluateLimit(limit: Limit, today: int, month: int): (Decision, Reason) {
    var checks := Checks(limit, today, month);
    match FirstAt(checks, 2)
    case Some(c) => (Deny, HardStop(c))
    case None =>
      match FirstAt(checks, 1)
      case Some(c) => (NeedsApproval, Reached(c))
      case None => (Allow, WithinLimit)
  }

  function EvaluateActionLimit(tool: Text, limits: Option<map<Text, RawLimit>>, today: int, month: int)
    : (Decision, Reason)
  {
    if limits.None? || tool !in limits.value then (Allow, LimitNotSet)
    else
      match limits.value[tool]
      case NotAnObject(truthy) => (Allow, if truthy then WithinLimit else LimitNotSet)
      case Obj(limit) => EvaluateLimit(limit, today, month)
  }

  // ----- what the gate decides -----

  /** A limit that is set has been used `factor` times over. */
  predicate Used(limit: Num, count: int, factor: nat) {
    ValidLimit(limit).Some? && count >= ValidLimit(limit).value * factor
  }

  /**
    The hard stop applies exactly when some limit is used twice over, a human is
    asked exactly when none is but some limit is used up, the day's limit being
    reported first.
   */
  lemma DecisionExactly(limit: Limit, today: int, month: int)
    ensures var (d, why) := EvaluateLimit(limit, today, month);
      && (d == Deny <==> Used(limit.perDay, today, 2) || Used(limit.perMonth, month, 2))
      && (d == Allow <==> !Used(limit.perDay, today, 1) && !Used(limit.perMonth, month, 1))
      && (d == Deny ==> why.HardStop? && (why.check.period == PerDay <==> Used(limit.perDay, today, 2)))
      && (d == NeedsApproval ==> why.Reached? && (why.check.period == PerDay <==> Used(limit.perDay, today, 1)))
  {
    var checks := Checks(limit, today, month);
    FirstAtOfTwo(checks, 2);
    FirstAtOfTwo(checks, 1);
  }

  lemma FirstAtOfTwo(checks: seq<Check>, factor: nat)
    requires |checks| <= 2
    ensures FirstAt(checks, factor)
         == if |checks| > 0 && checks[0].count >= checks[0].value * factor then Some(checks[0])
            else if |checks| > 1 && checks[1].count >= checks[1].value * factor then Some(checks[1])
            else None
  {
    if |checks| == 2 {
      assert checks[1..] == [checks[1]];
    }
  }

  function Severity(d: Decision): nat {
    match d case Allow => 0 case NeedsApproval => 1 case Deny => 2
  }

  /** More executions never get a milder answer. */
  lemma SeverityMonotone(limit: Limit, today: int, month: int, today': int, month': int)
    requires today <= today' && month <= month'
    ensures Severity(EvaluateLimit(limit, today, month).0) <= Severity(EvaluateLimit(limit, today', month').0)
  {
    DecisionExactly(limit, today, month);
    DecisionExactly(limit, today', month');
  }

  // ----- normalising stored limits -----

  predicate Kept(raw: RawLimit) {
    raw.Obj? && (ValidLimit(raw.limit.perDay).Some? || ValidLimit(raw.limit.perMonth).Some?)
  }

  function CleanNumber(n: Num): Num {
    if ValidLimit(n).Some? then n else NaN
  }

  function Cleaned(limit: Limit): Limit {
    Limit(CleanNumber(limit.perDay), CleanNumber(limit.perMonth))
  }

  /** Of the first `k` entries, the one that decides what is stored for `tool`: the last one kept under that name. */
  ghost predicate Decides(entries: seq<(Text, RawLimit)>, k: nat, i: int, tool: Text)
    requires k <= |entries|
  {
    && 0 <= i < k && Kept(entries[i].1) && Trim(entries[i].0) == tool
    && forall j | i < j < k :: !(Kept(entries[j].1) && Trim(entries[j].0) == tool)
  }

  /** `tool` is stored with the cleaned limit of the entry that decides. */
  ghost predicate Stored(entries: seq<(Text, RawLimit)>, k: nat, m: map<Text, RawLimit>, tool: Text)
    requires k <= |entries| && tool in m
  {
    tool != [] && exists i :: Decides(entries, k, i, tool) && m[tool] == Obj(Cleaned(entries[i].1.limit))
  }

  ghost predicate IsNormalized(entries: seq<(Text, RawLimit)>, k: nat, m: map<Text, RawLimit>)
    requires k <= |entries|
  {
    && (forall tool | tool in m :: Stored(entries, k, m, tool))
    && (forall i | 0 <= i < k && Kept(entries[i].1) && Trim(entries[i].0) != [] :: Trim(entries[i].0) in m)
  }

  /** An entry under another name, or not kept, leaves what is stored for `tool` alone. */
  lemma StoredNext(entries: seq<(Text, RawLimit)>, k: nat, m: map<Text, RawLimit>, m': map<Text, RawLimit>, tool: Text)
    requires k < |entries| && tool in m && Stored(entries, k, m, tool)
    requires !(Kept(entries[k].1) && Trim(entries[k].0) == tool)
    requires tool in m' && m'[tool] == m[tool]
    ensures Stored(entries, k + 1, m', tool)
  {
    var i :| Decides(entries, k, i, tool) && m[tool] == Obj(Cleaned(entries[i].1.limit));
    assert Decides(entries, k + 1, i, tool);
  }

  lemma StoredNow(entries: seq<(Text, RawLimit)>, k: nat, m: map<Text, RawLimit>, tool: Text)
    requires k < |entries| && Kept(entries[k].1) && Trim(entries[k].0) == tool && tool != []
    requires tool in m && m[tool] == Obj(Cleaned(entries[k].1.limit))
    ensures Stored(entries, k + 1, m, tool)
  {
    assert Decides(entries, k + 1, k, tool);
  }

  lemma NormalizedNext(entries: seq<(Text, RawLimit)>, k: nat, m: map<Text, RawLimit>, m': map<Text, RawLimit>)
    requires k < |entries| && IsNormalized(entries, k, m)
    requires Kept(entries[k].1) && Trim(entries[k].0) != []
    requires m' == m[Trim(entries[k].0) := Obj(Cleaned(entries[k].1.limit))]
    ensures IsNormalized(entries, k + 1, m')
  {
    var name := Trim(entries[k].0);
    StoredNow(entries, k, m', name);
    forall tool | tool in m' && tool != name
      ensures Stored(entries, k + 1, m', tool)
    {
      assert Stored(entries, k, m, tool);
      StoredNext(entries, k, m, m', tool);
    }
  }

  lemma NormalizedSkips(entries: seq<(Text, RawLimit)>, k: nat, m: map<Text, RawLimit>)
    requires k < |entries| && IsNormalized(entries, k, m)
    requires !Kept(entries[k].1) || Trim(entries[k].0) == []
    ensures IsNormalized(entries, k + 1, m)
  {
    forall tool | tool in m
      ensures Stored(entries, k + 1, m, tool)
    {
      assert Stored(entries, k, m, tool);
      StoredNext(entries, k, m, m, tool);
    }
  }

  /** Normalises what was stored; anything but an object with entries normalises to nothing. */
  method NormalizeActionLimits(value: Option<seq<(Text, RawLimit)>>) returns (r: map<Text, RawLimit>)
    ensures value.None? ==> r == map[]
    ensures value.Some? ==> IsNormalized(value.value, |value.value|, r)
  {
    if value.None? {
      return map[];
    }
    var input := value.value;
    var entries: seq<(Text, Limit)> := [];
    r := map[];
    for k := 0 to |input|
      invariant IsNormalized(input, k, FromEntries(entries))
    {
      var (tool, raw) := input[k];
      ghost var before := FromEntries(entries);
      if raw.Obj? && (ValidLimit(raw.limit.perDay).Some? || ValidLimit(raw.limit.perMonth).Some?) {
        FromEntriesNext(entries, Trim(tool), Cleaned(raw.limit));
        entries := entries + [(Trim(tool), Cleaned(raw.limit))];
      }
      if Kept(raw) && Trim(tool) != [] {
        NormalizedNext(input, k, before, FromEntries(entries));
      } else {
        NormalizedSkips(input, k, before);
      }
    }
    r := FromEntries(entries);
  }

  /** `Object.fromEntries` of the entries whose tool name is not empty: a later entry replaces an earlier one. */
  function FromEntries(entries: seq<(Text, Limit)>): map<Text, RawLimit> {
    if entries == [] then map[]
    else
      var m := FromEntries(entries[..|entries| - 1]);
      var (tool, limit) := entries[|entries| - 1];
      if tool == [] then m else m[tool := Obj(limit)]
  }

  lemma FromEntriesNext(entries: seq<(Text, Limit)>, tool: Text, limit: Limit)
    ensures FromEntries(entries + [(tool, limit)])
         == if tool == [] then FromEntries(entries) else FromEntries(entries)[tool := Obj(limit)]
  {
    assert (entries + [(tool, limit)])[..|entries|] == entries;
  }

  /** The normalised limits are determined by the entries. */
  lemma NormalizedUnique(entries: seq<(Text, RawLimit)>, m: map<Text, RawLimit>, m': map<Text, RawLimit>)
    requires IsNormalized(entries, |entries|, m) && IsNormalized(entries, |entries|, m')
    ensures m == m'
  {
    forall tool | tool in m
      ensures tool in m' && m[tool] == m'[tool]
    {
      assert Stored(entries, |entries|, m, tool);
      var i :| Decides(entries, |entries|, i, tool) && m[tool] == Obj(Cleaned(entries[i].1.limit));
      assert tool in m' && Stored(entries, |entries|, m', tool);
      var j :| Decides(entries, |entries|, j, tool) && m'[tool] == Obj(Cleaned(entries[j].1.limit));
      assert i == j;
    }
    forall tool | tool in m'
      ensures tool in m
    {
      assert Stored(entries, |entries|, m', tool);
      var i :| Decides(entries, |entries|, i, tool) && m'[tool] == Obj(Cleaned(entries[i].1.limit));
    }
  }

  /** `entries` lists the properties of the object `m`, in some order. */
  ghost predicate Lists(entries: seq<(Text, RawLimit)>, m: map<Text, RawLimit>) {
    && (forall i | 0 <= i < |entries| :: entries[i].0 in m && m[entries[i].0] == entries[i].1)
    && (forall tool | tool in m :: exists i :: 0 <= i < |entries| && entries[i].0 == tool)
    && (forall i, j | 0 <= i < j < |entries| :: entries[i].0 != entries[j].0)
  }

  /** Limits as normalising leaves them: trimmed non-empty names, something valid, nothing invalid. */
  predicate IsClean(tool: Text, raw: RawLimit) {
    && tool != [] && Trim(tool) == tool && Kept(raw)
    && (raw.limit.perDay == NaN || ValidLimit(raw.limit.perDay).Some?)
    && (raw.limit.perMonth == NaN || ValidLimit(raw.limit.perMonth).Some?)
  }

  lemma NormalizedIsClean(entries: seq<(Text, RawLimit)>, m: map<Text, RawLimit>, tool: Text)
    requires IsNormalized(entries, |entries|, m) && tool in m
    ensures IsClean(tool, m[tool])
  {
    assert Stored(entries, |entries|, m, tool);
    var i :| Decides(entries, |entries|, i, tool) && m[tool] == Obj(Cleaned(entries[i].1.limit));
    TrimFixed(entries[i].0);
  }

  /** Normalising what was normalised, its properties listed in any order, changes nothing. */
  lemma {:induction false} NormalizeIdempotent(entries: seq<(Text, RawLimit)>, m: map<Text, RawLimit>,
                                               again: seq<(Text, RawLimit)>)
    requires IsNormalized(entries, |entries|, m) && Lists(again, m)
    ensures forall m' | IsNormalized(again, |again|, m') :: m' == m
    ensures IsNormalized(again, |again|, m)
  {
    forall i | 0 <= i < |again|
      ensures IsClean(again[i].0, again[i].1)
    {
      NormalizedIsClean(entries, m, again[i].0);
    }
    forall tool | tool in m
      ensures Stored(again, |again|, m, tool)
    {
      var i :| 0 <= i < |again| && again[i].0 == tool;
      assert IsClean(again[i].0, again[i].1);
      forall j | i < j < |again|
        ensures Trim(again[j].0) != tool
      {
        assert IsClean(again[j].0, again[j].1);
      }
      assert Decides(again, |again|, i, tool);
    }
    forall m' | IsNormalized(again, |again|, m')
      ensures m' == m
    {
      NormalizedUnique(again, m', m);
    }
  }

  /** No entry that is kept has an empty name or one with white space at an end. */
  ghost predicate KeptNamesTrimmed(entries: seq<(Text, RawLimit)>) {
    forall i | 0 <= i < |entries| && Kept(entries[i].1) :: entries[i].0 != [] && Trim(entries[i].0) == entries[i].0
  }

  /** The two objects get the same decision (not the same reason) for every tool and all counts. */
  ghost predicate SameDecisions(a: map<Text, RawLimit>, b: map<Text, RawLimit>) {
    forall tool, today, month ::
      EvaluateActionLimit(tool, Some(a), today, month).0 == EvaluateActionLimit(tool, Some(b), today, month).0
  }

  lemma CleaningKeepsDecision(limit: Limit, today: int, month: int)
    ensures EvaluateLimit(Cleaned(limit), today, month) == EvaluateLimit(limit, today, month)
  {
  }

  lemma UnkeptAllows(raw: RawLimit, today: int, month: int)
    requires raw.Obj? && !Kept(raw)
    ensures EvaluateLimit(raw.limit, today, month).0 == Allow
  {
    DecisionExactly(raw.limit, today, month);
  }

  lemma {:induction false} TrimmedNamesKeepDecision(
    entries: seq<(Text, RawLimit)>, raw: map<Text, RawLimit>, m: map<Text, RawLimit>,
    tool: Text, today: int, month: int)
    requires Lists(entries, raw) && KeptNamesTrimmed(entries) && IsNormalized(entries, |entries|, m)
    ensures EvaluateActionLimit(tool, Some(raw), today, month).0 == EvaluateActionLimit(tool, Some(m), today, month).0
  {
    if tool in m {
      assert Stored(entries, |entries|, m, tool);
      var i :| Decides(entries, |entries|, i, tool) && m[tool] == Obj(Cleaned(entries[i].1.limit));
      assert entries[i].0 == tool && raw[tool] == entries[i].1;
      CleaningKeepsDecision(raw[tool].limit, today, month);
    } else if tool in raw {
      var i :| 0 <= i < |entries| && entries[i].0 == tool;
      assert !Kept(raw[tool]);
      if raw[tool].Obj? { UnkeptAllows(raw[tool], today, month); }
    }
  }

  /** The count at which the limit, if it is valid, is used twice over. */
  function TwiceUsed(limit: Num): nat {
    2 * ValidLimit(limit).GetOr(0)
  }

  lemma DeniedAtTwice(limit: Limit)
    requires ValidLimit(limit.perDay).Some? || ValidLimit(limit.perMonth).Some?
    ensures EvaluateLimit(limit, TwiceUsed(limit.perDay), TwiceUsed(limit.perMonth)).0 == Deny
  {
    DecisionExactly(limit, TwiceUsed(limit.perDay), TwiceUsed(limit.perMonth));
  }

  lemma StoredDenies(m: map<Text, RawLimit>, tool: Text)
    requires tool in m && Kept(m[tool])
    ensures var limit := m[tool].limit;
      EvaluateActionLimit(tool, Some(m), TwiceUsed(limit.perDay), TwiceUsed(limit.perMonth)).0 == Deny
  {
    DeniedAtTwice(m[tool].limit);
  }

  /**
    A kept entry whose name is empty or has white space at an end loses its limit:
    where the stored object stops the tool of that very name, the normalised one
    lets it through.
   */
  lemma UntrimmedNameLosesLimit(entries: seq<(Text, RawLimit)>, raw: map<Text, RawLimit>,
                                m: map<Text, RawLimit>, i: int)
    requires Lists(entries, raw) && IsNormalized(entries, |entries|, m)
    requires 0 <= i < |entries| && Kept(entries[i].1)
    requires entries[i].0 == [] || Trim(entries[i].0) != entries[i].0
    ensures var (tool, today, month) := (entries[i].0, TwiceUsed(entries[i].1.limit.perDay),
                                         TwiceUsed(entries[i].1.limit.perMonth));
      && EvaluateActionLimit(tool, Some(raw), today, month).0 == Deny
      && EvaluateActionLimit(tool, Some(m), today, month) == (Allow, LimitNotSet)
  {
    var (tool, limit) := (entries[i].0, entries[i].1.limit);
    if tool in m { NormalizedIsClean(entries, m, tool); }
    StoredDenies(raw, tool);
  }

  /** A limit bites under the trimmed name, also if the stored object has none of that name. */
  lemma UntrimmedNameMovesLimit(entries: seq<(Text, RawLimit)>, raw: map<Text, RawLimit>,
                                m: map<Text, RawLimit>, i: int) returns (today: nat, month: nat)
    requires Lists(entries, raw) && IsNormalized(entries, |entries|, m)
    requires 0 <= i < |entries| && Kept(entries[i].1) && Trim(entries[i].0) != []
    ensures EvaluateActionLimit(Trim(entries[i].0), Some(m), today, month).0 == Deny
    ensures Trim(entries[i].0) !in raw
        ==> EvaluateActionLimit(Trim(entries[i].0), Some(raw), today, month) == (Allow, LimitNotSet)
  {
    var tool := Trim(entries[i].0);
    NormalizedIsClean(entries, m, tool);
    today, month := TwiceUsed(m[tool].limit.perDay), TwiceUsed(m[tool].limit.perMonth);
    StoredDenies(m, tool);
  }

  /**
    Normalising keeps every decision exactly when the names of the entries that are
    kept are not empty and have no white space at their ends.
   */
  lemma {:induction false} NormalizeKeepsDecisions(
    entries: seq<(Text, RawLimit)>, raw: map<Text, RawLimit>, m: map<Text, RawLimit>)
    requires Lists(entries, raw) && IsNormalized(entries, |entries|, m)
    ensures SameDecisions(raw, m) <==> KeptNamesTrimmed(entries)
  {
    if KeptNamesTrimmed(entries) {
      forall tool, today, month
        ensures EvaluateActionLimit(tool, Some(raw), today, month).0
             == EvaluateActionLimit(tool, Some(m), today, month).0
      {
        TrimmedNamesKeepDecision(entries, raw, m, tool, today, month);
      }
    } else {
      var i :| 0 <= i < |entries| && Kept(entries[i].1)
            && !(entries[i].0 != [] && Trim(entries[i].0) == entries[i].0);
      UntrimmedNameLosesLimit(entries, raw, m, i);
    }
  }
}
