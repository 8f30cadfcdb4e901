/**
  The action gate over a run: every call is counted from the action log, judged,
  and counted when its path reaches the counter. Two tools of the gateway never wait
  for a human, one never reaches the counter.
  Days are days of Tokyo; the month of a day is a parameter, the calendar itself
  not being modelled.
 */
module ActionRuns {
  import opened Options
  import opened CodeUnits
  import opened Counting
  import opened Numbers
  import opened ActionGate

  const DAY_MS: int := 86400000
  const TOKYO_OFFSET_MS: int := 9 * 60 * 60 * 1000

  /** Whose action, with which tool: what counters are kept by. */
  datatype Key = Key(org: Text, employee: Text, tool: Text)

  /** An execution, and whether a human approved it. */
  datatype Executed = Executed(key: Key, at: int, approved: bool)

  /**
    How a call ends that the gate let through: stopped by something else, carried
    out and counted, carried out on a path that returns before the counter, or
    counted for what an earlier call carried out.
   */
  datatype Ending = Stopped | Completed | LeftEarly | Replayed

  /** A call of the gateway, or the execution of an approved request, which consults neither gate nor counter. */
  datatype Call =
    | Invoke(key: Key, now: int, approved: bool, ending: Ending)
    | Fulfil(key: Key, now: int)

  /** What was carried out, and what the counters know of it. */
  datatype Logs = Logs(executed: seq<Executed>, counted: seq<Executed>)

  /** The limits of every employee, by org and employee, and the month each day belongs to. */
  datatype Setting = Setting(limitsOf: (Text, Text) -> Option<map<Text, RawLimit>>, monthOf: int -> int)

  function DayOf(at: int): int {
    (at + TOKYO_OFFSET_MS) / DAY_MS
  }

  function StartOfDay(at: int): int {
    DayOf(at) * DAY_MS - TOKYO_OFFSET_MS
  }

  /** Logged since the start of the current day, whatever day that is an entry of. */
  function CountToday(log: seq<Executed>, key: Key, now: int): nat {
    CountIf(log, (e: Executed) => e.key == key && e.at >= StartOfDay(now))
  }

  function CountThisMonth(s: Setting, log: seq<Executed>, key: Key, now: int): nat {
    CountIf(log, (e: Executed) => e.key == key && s.monthOf(DayOf(e.at)) == s.monthOf(DayOf(now)))
  }

  function Judge(s: Setting, counted: seq<Executed>, key: Key, now: int): Decision {
    EvaluateActionLimit(key.tool, s.limitsOf(key.org, key.employee),
                        CountToday(counted, key, now), CountThisMonth(s, counted, key, now)).0
  }

  /** The tools the gateway never holds back for approval. */
  predicate Exempt(tool: Text) {
    tool == Literal("tools.ping") || tool == Literal("audit.append")
  }

  /** The tool that leaves for its own module right after the gate and never comes back to the counter. */
  predicate IsDelete(tool: Text) {
    tool == Literal("comm.delete")
  }

  /** Whether the gate lets a call through: never past the hard stop, past the limit only with approval. */
  predicate Passes(s: Setting, counted: seq<Executed>, key: Key, now: int, approved: bool) {
    match Judge(s, counted, key, now)
    case Allow => true
    case NeedsApproval => approved || Exempt(key.tool)
    case Deny => false
  }

  /** Executions are counted for tools the employee has an entry for. */
  predicate IsCounted(s: Setting, key: Key) {
    var limits := s.limitsOf(key.org, key.employee);
    limits.Some? && key.tool in limits.value && limits.value[key.tool] != NotAnObject(false)
  }

  predicate Executes(s: Setting, counted: seq<Executed>, c: Call) {
    match c
    case Invoke(key, now, approved, ending) =>
      Passes(s, counted, key, now, approved) && (ending == Completed || ending == LeftEarly)
    case Fulfil(_, _) => true
  }

  predicate Counts(s: Setting, counted: seq<Executed>, c: Call) {
    match c
    case Invoke(key, now, approved, ending) =>
      && Passes(s, counted, key, now, approved) && (ending == Completed || ending == Replayed)
      && !IsDelete(key.tool) && IsCounted(s, key)
    case Fulfil(_, _) => false
  }

  predicate Approved(c: Call) {
    c.Fulfil? || c.approved
  }

  function Entry(c: Call): Executed {
    Executed(c.key, c.now, Approved(c))
  }

  function Take(s: Setting, logs: Logs, c: Call): Logs {
    Logs(if Executes(s, logs.counted, c) then logs.executed + [Entry(c)] else logs.executed,
         if Counts(s, logs.counted, c) then logs.counted + [Entry(c)] else logs.counted)
  }

  function RunCalls(s: Setting, calls: seq<Call>): Logs {
    if calls == [] then Logs([], [])
    else Take(s, RunCalls(s, calls[..|calls| - 1]), calls[|calls| - 1])
  }

  // ----- what is to be bounded -----

  function OnDay(log: seq<Executed>, key: Key, day: int): nat {
    CountIf(log, (e: Executed) => e.key == key && DayOf(e.at) == day)
  }

  function UnattendedOnDay(log: seq<Executed>, key: Key, day: int): nat {
    CountIf(log, (e: Executed) => e.key == key && DayOf(e.at) == day && !e.approved)
  }

  function InMonth(s: Setting, log: seq<Executed>, key: Key, month: int): nat {
    CountIf(log, (e: Executed) => e.key == key && s.monthOf(DayOf(e.at)) == month)
  }

  function UnattendedInMonth(s: Setting, log: seq<Executed>, key: Key, month: int): nat {
    CountIf(log, (e: Executed) => e.key == key && s.monthOf(DayOf(e.at)) == month && !e.approved)
  }

  /** The limit the gate applies to the key, if the employee has one for the tool. */
  function LimitFor(s: Setting, key: Key): Option<Limit> {
    var limits := s.limitsOf(key.org, key.employee);
    if limits.Some? && key.tool in limits.value && limits.value[key.tool].Obj?
    then Some(limits.value[key.tool].limit) else None
  }

  function DayLimit(s: Setting, key: Key): Option<nat> {
    if LimitFor(s, key).Some? then ValidLimit(LimitFor(s, key).value.perDay) else None
  }

  function MonthLimit(s: Setting, key: Key): Option<nat> {
    if LimitFor(s, key).Some? then ValidLimit(LimitFor(s, key).value.perMonth) else None
  }

  /** Twice the limit at most, and the limit itself without a human, unless the tool is exempt. */
  predicate Bounded(limit: Option<nat>, tool: Text, all: nat, unattended: nat) {
    && unattended <= all
    && (limit.Some? ==> all <= 2 * limit.value && (Exempt(tool) || unattended <= limit.value))
  }

  ghost predicate Safe(s: Setting, log: seq<Executed>) {
    && (forall key, day :: Bounded(DayLimit(s, key), key.tool, OnDay(log, key, day), UnattendedOnDay(log, key, day)))
    && (forall key, month ::
          Bounded(MonthLimit(s, key), key.tool, InMonth(s, log, key, month), UnattendedInMonth(s, log, key, month)))
  }

  lemma CountSubset(log: seq<Executed>, p: Executed -> bool, q: Executed -> bool)
    requires forall e <- log :: p(e) ==> q(e)
    ensures CountIf(log, p) <= CountIf(log, q)
  {
    var rest := (e: Executed) => q(e) && !p(e);
    CountSplit(log, q, p, rest);
  }

  /** The day of Tokyo turns at three in the afternoon of Greenwich, and lasts a day. */
  lemma TokyoDay(at: int)
    ensures DayOf(15 * 3600000 - 1) == 0 && DayOf(15 * 3600000) == 1
    ensures DayOf(at + 24 * 3600000) == DayOf(at) + 1
    ensures StartOfDay(at) <= at < StartOfDay(at) + 24 * 3600000 && DayOf(StartOfDay(at)) == DayOf(at)
  {
  }

  lemma StartsItsDay(at: int, now: int)
    ensures DayOf(at) == DayOf(now) ==> at >= StartOfDay(now)
    ensures at >= StartOfDay(now) ==> DayOf(at) >= DayOf(now)
  {
  }

  /** What is counted as today includes everything of that day, even on a clock that runs backwards. */
  lemma TodayCovers(log: seq<Executed>, key: Key, now: int)
    ensures OnDay(log, key, DayOf(now)) <= CountToday(log, key, now)
  {
    forall e | e in log
      ensures e.key == key && DayOf(e.at) == DayOf(now) ==> e.key == key && e.at >= StartOfDay(now)
    {
      StartsItsDay(e.at, now);
    }
    CountSubset(log, (e: Executed) => e.key == key && DayOf(e.at) == DayOf(now),
                (e: Executed) => e.key == key && e.at >= StartOfDay(now));
  }

  /** As long as nothing is logged for a later day, it is exactly that. */
  lemma TodayExact(log: seq<Executed>, key: Key, now: int)
    requires forall e <- log :: DayOf(e.at) <= DayOf(now)
    ensures CountToday(log, key, now) == OnDay(log, key, DayOf(now))
  {
    forall e | e in log
      ensures (e.key == key && e.at >= StartOfDay(now)) == (e.key == key && DayOf(e.at) == DayOf(now))
    {
      StartsItsDay(e.at, now);
    }
    CountSame(log, (e: Executed) => e.key == key && e.at >= StartOfDay(now),
              (e: Executed) => e.key == key && DayOf(e.at) == DayOf(now));
  }

  /** What a counted call found: no limit used up twice, none used up at all when no human approved. */
  lemma CountedWithinLimits(s: Setting, log: seq<Executed>, c: Call)
    requires Counts(s, log, c)
    ensures var today, month := CountToday(log, c.key, c.now), CountThisMonth(s, log, c.key, c.now);
      && (DayLimit(s, c.key).Some? ==> today < 2 * DayLimit(s, c.key).value)
      && (MonthLimit(s, c.key).Some? ==> month < 2 * MonthLimit(s, c.key).value)
      && (!c.approved && !Exempt(c.key.tool) && DayLimit(s, c.key).Some? ==> today < DayLimit(s, c.key).value)
      && (!c.approved && !Exempt(c.key.tool) && MonthLimit(s, c.key).Some? ==> month < MonthLimit(s, c.key).value)
  {
    if LimitFor(s, c.key).Some? {
      DecisionExactly(LimitFor(s, c.key).value, CountToday(log, c.key, c.now), CountThisMonth(s, log, c.key, c.now));
    }
  }

  lemma CountAppend(log: seq<Executed>, e: Executed, p: Executed -> bool)
    ensures CountIf(log + [e], p) == CountIf(log, p) + if p(e) then 1 else 0
  {
    assert (log + [e])[..|log|] == log;
  }

  lemma DayStaysBounded(s: Setting, log: seq<Executed>, c: Call, key: Key, day: int)
    requires Counts(s, log, c)
    requires Bounded(DayLimit(s, key), key.tool, OnDay(log, key, day), UnattendedOnDay(log, key, day))
    ensures var after := log + [Entry(c)];
      Bounded(DayLimit(s, key), key.tool, OnDay(after, key, day), UnattendedOnDay(after, key, day))
  {
    CountAppend(log, Entry(c), (e: Executed) => e.key == key && DayOf(e.at) == day);
    CountAppend(log, Entry(c), (e: Executed) => e.key == key && DayOf(e.at) == day && !e.approved);
    CountedWithinLimits(s, log, c);
    TodayCovers(log, c.key, c.now);
  }

  lemma MonthStaysBounded(s: Setting, log: seq<Executed>, c: Call, key: Key, month: int)
    requires Counts(s, log, c)
    requires Bounded(MonthLimit(s, key), key.tool, InMonth(s, log, key, month), UnattendedInMonth(s, log, key, month))
    ensures var after := log + [Entry(c)];
      Bounded(MonthLimit(s, key), key.tool, InMonth(s, after, key, month), UnattendedInMonth(s, after, key, month))
  {
    CountAppend(log, Entry(c), (e: Executed) => e.key == key && s.monthOf(DayOf(e.at)) == month);
    CountAppend(log, Entry(c), (e: Executed) => e.key == key && s.monthOf(DayOf(e.at)) == month && !e.approved);
    CountedWithinLimits(s, log, c);
    MonthExact(s, log, c.key, c.now);
  }

  /**
    Over any run, for every employee and tool, the counters of no day and no month
    get past twice their limit nor, for a tool that is not exempt, do the
    executions without a human among them get past the limit. The clock may jump
    in either direction.
   */
  lemma {:induction false} CountersAreSafe(s: Setting, calls: seq<Call>)
    ensures Safe(s, RunCalls(s, calls).counted)
  {
    if calls != [] {
      var log, c := RunCalls(s, calls[..|calls| - 1]).counted, calls[|calls| - 1];
      CountersAreSafe(s, calls[..|calls| - 1]);
      if Counts(s, log, c) {
        var after := log + [Entry(c)];
        forall key, day
          ensures Bounded(DayLimit(s, key), key.tool, OnDay(after, key, day), UnattendedOnDay(after, key, day))
        {
          DayStaysBounded(s, log, c, key, day);
        }
        forall key, month
          ensures Bounded(MonthLimit(s, key), key.tool,
                          InMonth(s, after, key, month), UnattendedInMonth(s, after, key, month))
        {
          MonthStaysBounded(s, log, c, key, month);
        }
      }
    }
  }

  // ----- what is executed, counted or not -----

  /** Whether the call carries anything out once it passes the gate. */
  predicate Acts(c: Call) {
    c.Fulfil? || c.ending == Completed || c.ending == LeftEarly
  }

  /** What the call carries out, if anything, is counted under an entry. */
  predicate IsAccounted(c: Call) {
    Acts(c) ==> c.Invoke? && c.ending == Completed && !IsDelete(c.key.tool)
  }

  /** Every call of the key is accounted for, or every one without a human. */
  ghost predicate AllAccounted(calls: seq<Call>, key: Key, attended: bool) {
    forall c <- calls | c.key == key && (attended || !Approved(c)) :: IsAccounted(c)
  }

  predicate Within(limit: Option<nat>, factor: nat, count: nat) {
    limit.Some? ==> count <= factor * limit.value
  }

  ghost predicate AllWithin(s: Setting, log: seq<Executed>, key: Key, factor: nat) {
    && (forall day :: Within(DayLimit(s, key), factor, OnDay(log, key, day)))
    && (forall month :: Within(MonthLimit(s, key), factor, InMonth(s, log, key, month)))
  }

  ghost predicate UnattendedWithin(s: Setting, log: seq<Executed>, key: Key, factor: nat) {
    && (forall day :: Within(DayLimit(s, key), factor, UnattendedOnDay(log, key, day)))
    && (forall month :: Within(MonthLimit(s, key), factor, UnattendedInMonth(s, log, key, month)))
  }

  /** Executions accounted for are among the counted ones. */
  lemma {:induction false} ExecutedAreCounted(s: Setting, calls: seq<Call>, key: Key, attended: bool,
                                              p: Executed -> bool)
    requires IsCounted(s, key) && AllAccounted(calls, key, attended)
    requires forall e :: p(e) ==> e.key == key && (attended || !e.approved)
    ensures CountIf(RunCalls(s, calls).executed, p) <= CountIf(RunCalls(s, calls).counted, p)
  {
    if calls != [] {
      var logs, c := RunCalls(s, calls[..|calls| - 1]), calls[|calls| - 1];
      ExecutedAreCounted(s, calls[..|calls| - 1], key, attended, p);
      CountAppend(logs.executed, Entry(c), p);
      CountAppend(logs.counted, Entry(c), p);
    }
  }

  /**
    Over any run, an employee does not execute a tool past twice its limit as long
    as every execution is accounted for, nor past the limit itself without a human
    as long as every execution without a human is, an exempt tool having twice the
    limit there too.
   */
  lemma RunIsSafe(s: Setting, calls: seq<Call>, key: Key)
    ensures AllAccounted(calls, key, true) ==> AllWithin(s, RunCalls(s, calls).executed, key, 2)
    ensures AllAccounted(calls, key, false)
        ==> UnattendedWithin(s, RunCalls(s, calls).executed, key, if Exempt(key.tool) then 2 else 1)
  {
    CountersAreSafe(s, calls);
    if IsCounted(s, key) && AllAccounted(calls, key, true) { AttendedWithin(s, calls, key); }
    if IsCounted(s, key) && AllAccounted(calls, key, false) { UnattendedIsWithin(s, calls, key); }
  }

  lemma AttendedWithin(s: Setting, calls: seq<Call>, key: Key)
    requires IsCounted(s, key) && AllAccounted(calls, key, true) && Safe(s, RunCalls(s, calls).counted)
    ensures AllWithin(s, RunCalls(s, calls).executed, key, 2)
  {
    var logs := RunCalls(s, calls);
    forall day
      ensures Within(DayLimit(s, key), 2, OnDay(logs.executed, key, day))
    {
      ExecutedAreCounted(s, calls, key, true, (e: Executed) => e.key == key && DayOf(e.at) == day);
      assert Bounded(DayLimit(s, key), key.tool,
                     OnDay(logs.counted, key, day), UnattendedOnDay(logs.counted, key, day));
    }
    forall month
      ensures Within(MonthLimit(s, key), 2, InMonth(s, logs.executed, key, month))
    {
      ExecutedAreCounted(s, calls, key, true, (e: Executed) => e.key == key && s.monthOf(DayOf(e.at)) == month);
      assert Bounded(MonthLimit(s, key), key.tool,
                     InMonth(s, logs.counted, key, month), UnattendedInMonth(s, logs.counted, key, month));
    }
  }

  lemma UnattendedIsWithin(s: Setting, calls: seq<Call>, key: Key)
    requires IsCounted(s, key) && AllAccounted(calls, key, false) && Safe(s, RunCalls(s, calls).counted)
    ensures UnattendedWithin(s, RunCalls(s, calls).executed, key, if Exempt(key.tool) then 2 else 1)
  {
    var logs, factor := RunCalls(s, calls), if Exempt(key.tool) then 2 else 1;
    forall day
      ensures Within(DayLimit(s, key), factor, UnattendedOnDay(logs.executed, key, day))
    {
      ExecutedAreCounted(s, calls, key, false,
                         (e: Executed) => e.key == key && DayOf(e.at) == day && !e.approved);
      assert Bounded(DayLimit(s, key), key.tool,
                     OnDay(logs.counted, key, day), UnattendedOnDay(logs.counted, key, day));
    }
    forall month
      ensures Within(MonthLimit(s, key), factor, UnattendedInMonth(s, logs.executed, key, month))
    {
      ExecutedAreCounted(s, calls, key, false,
                         (e: Executed) => e.key == key && s.monthOf(DayOf(e.at)) == month && !e.approved);
      assert Bounded(MonthLimit(s, key), key.tool,
                     InMonth(s, logs.counted, key, month), UnattendedInMonth(s, logs.counted, key, month));
    }
  }

  // ----- where the bounds fail -----

  function Repeated<T>(x: T, n: nat): (r: seq<T>)
    ensures |r| == n && forall i | 0 <= i < n :: r[i] == x
  {
    if n == 0 then [] else Repeated(x, n - 1) + [x]
  }

  lemma {:induction false} CountRepeated(e: Executed, n: nat, p: Executed -> bool)
    ensures CountIf(Repeated(e, n), p) == if p(e) then n else 0
  {
    if n > 0 {
      CountRepeated(e, n - 1, p);
      CountAppend(Repeated(e, n - 1), e, p);
    }
  }

  /** Repeating a call, the logs go through `logs` if each step takes them from one to the next. */
  lemma {:induction false} RunRepeated(s: Setting, c: Call, n: nat, logs: nat -> Logs)
    requires logs(0) == Logs([], []) && forall i: nat | i < n :: Take(s, logs(i), c) == logs(i + 1)
    ensures RunCalls(s, Repeated(c, n)) == logs(n)
  {
    if n > 0 {
      RunRepeated(s, c, n - 1, logs);
      assert Repeated(c, n)[..n - 1] == Repeated(c, n - 1);
    }
  }

  /** `n` executions like `e`, as the two bounds see them. */
  lemma RepeatedCounts(s: Setting, e: Executed, n: nat)
    ensures OnDay(Repeated(e, n), e.key, DayOf(e.at)) == n
    ensures InMonth(s, Repeated(e, n), e.key, s.monthOf(DayOf(e.at))) == n
    ensures UnattendedOnDay(Repeated(e, n), e.key, DayOf(e.at)) == if e.approved then 0 else n
    ensures UnattendedInMonth(s, Repeated(e, n), e.key, s.monthOf(DayOf(e.at))) == if e.approved then 0 else n
  {
    var key, day := e.key, DayOf(e.at);
    var month := s.monthOf(day);
    CountRepeated(e, n, (e: Executed) => e.key == key && DayOf(e.at) == day);
    CountRepeated(e, n, (e: Executed) => e.key == key && s.monthOf(DayOf(e.at)) == month);
    CountRepeated(e, n, (e: Executed) => e.key == key && DayOf(e.at) == day && !e.approved);
    CountRepeated(e, n, (e: Executed) => e.key == key && s.monthOf(DayOf(e.at)) == month && !e.approved);
  }

  /** Nothing counted, nothing used up: every limit is positive. */
  lemma NothingCountedAllows(s: Setting, key: Key, now: int)
    ensures Judge(s, [], key, now) == Allow
  {
    if LimitFor(s, key).Some? {
      DecisionExactly(LimitFor(s, key).value, 0, 0);
    }
  }

  lemma UnaccountedStep(s: Setting, executed: seq<Executed>, c: Call)
    requires !IsAccounted(c)
    ensures Take(s, Logs(executed, []), c) == Logs(executed + [Entry(c)], [])
  {
    NothingCountedAllows(s, c.key, c.now);
  }

  /** A call that acts without being accounted for executes every time, whatever the limits. */
  lemma UnaccountedRepeats(s: Setting, c: Call, n: nat)
    requires !IsAccounted(c)
    ensures RunCalls(s, Repeated(c, n)) == Logs(Repeated(Entry(c), n), [])
  {
    var logs := (i: nat) => Logs(Repeated(Entry(c), i), []);
    forall i: nat | i < n
      ensures Take(s, logs(i), c) == logs(i + 1)
    {
      UnaccountedStep(s, Repeated(Entry(c), i), c);
    }
    RunRepeated(s, c, n, logs);
  }

  /**
    Repeating a call stays within twice a limit that is set exactly when the call
    is accounted for: approved requests fulfilled outside the gateway, paths that
    return early and every deletion of a post are not.
   */
  lemma RepeatsBoundedExactly(s: Setting, c: Call)
    requires DayLimit(s, c.key).Some? || MonthLimit(s, c.key).Some?
    ensures (forall n: nat :: AllWithin(s, RunCalls(s, Repeated(c, n)).executed, c.key, 2)) <==> IsAccounted(c)
  {
    if IsAccounted(c) {
      forall n: nat
        ensures AllWithin(s, RunCalls(s, Repeated(c, n)).executed, c.key, 2)
      {
        RunIsSafe(s, Repeated(c, n), c.key);
      }
    } else {
      var n := Beyond(DayLimit(s, c.key)) + Beyond(MonthLimit(s, c.key));
      UnaccountedRepeats(s, c, n);
      RepeatedCounts(s, Entry(c), n);
      var log, day := RunCalls(s, Repeated(c, n)).executed, DayOf(c.now);
      assert !Within(DayLimit(s, c.key), 2, OnDay(log, c.key, day))
          || !Within(MonthLimit(s, c.key), 2, InMonth(s, log, c.key, s.monthOf(day)));
      assert !AllWithin(s, log, c.key, 2);
    }
  }

  function Beyond(limit: Option<nat>): nat {
    2 * limit.GetOr(0) + 1
  }

  /** Deletions without a human: any number of them on one day, under any limits. */
  lemma DeletesAreUnbounded(s: Setting, key: Key, now: int, n: nat) returns (calls: seq<Call>)
    requires IsDelete(key.tool)
    ensures |calls| == n && forall c <- calls :: c == Invoke(key, now, false, Completed)
    ensures UnattendedOnDay(RunCalls(s, calls).executed, key, DayOf(now)) == n
    ensures UnattendedInMonth(s, RunCalls(s, calls).executed, key, s.monthOf(DayOf(now))) == n
  {
    var c := Invoke(key, now, false, Completed);
    calls := Repeated(c, n);
    UnaccountedRepeats(s, c, n);
    RepeatedCounts(s, Entry(c), n);
  }

  /** After `n` executions like the call's, all counted, the gate stops only at twice a limit. */
  lemma NotYetDenied(s: Setting, e: Executed, n: nat)
    requires DayLimit(s, e.key).Some? ==> n < 2 * DayLimit(s, e.key).value
    requires MonthLimit(s, e.key).Some? ==> n < 2 * MonthLimit(s, e.key).value
    ensures Judge(s, Repeated(e, n), e.key, e.at) != Deny
  {
    var log := Repeated(e, n);
    RepeatedCounts(s, e, n);
    MonthExact(s, log, e.key, e.at);
    TodayExact(log, e.key, e.at);
    if LimitFor(s, e.key).Some? {
      DecisionExactly(LimitFor(s, e.key).value, n, n);
    }
  }

  /** The logs of `n` executions like the call's, counted if the employee has an entry. */
  function ExemptLogs(s: Setting, c: Call, n: nat): Logs {
    Logs(Repeated(Entry(c), n), if IsCounted(s, c.key) then Repeated(Entry(c), n) else [])
  }

  lemma ExemptPasses(s: Setting, c: Call, n: nat)
    requires c.Invoke? && Exempt(c.key.tool)
    requires Within(DayLimit(s, c.key), 2, n + 1) && Within(MonthLimit(s, c.key), 2, n + 1)
    ensures Passes(s, ExemptLogs(s, c, n).counted, c.key, c.now, c.approved)
  {
    if IsCounted(s, c.key) {
      NotYetDenied(s, Entry(c), n);
    } else {
      NothingCountedAllows(s, c.key, c.now);
    }
  }

  lemma ExemptStep(s: Setting, c: Call, n: nat)
    requires c.Invoke? && Exempt(c.key.tool) && c.ending == Completed
    requires Passes(s, ExemptLogs(s, c, n).counted, c.key, c.now, c.approved)
    ensures Take(s, ExemptLogs(s, c, n), c) == ExemptLogs(s, c, n + 1)
  {
    assert !IsDelete(c.key.tool) by {
      assert Literal("comm.delete")[0] == 0x63;
    }
  }

  /** An exempt tool: as far as twice its limits, whatever they are. */
  lemma ExemptRepeats(s: Setting, c: Call, n: nat)
    requires c.Invoke? && Exempt(c.key.tool) && c.ending == Completed
    requires Within(DayLimit(s, c.key), 2, n) && Within(MonthLimit(s, c.key), 2, n)
    ensures RunCalls(s, Repeated(c, n)).executed == Repeated(Entry(c), n)
  {
    var logs := (i: nat) => ExemptLogs(s, c, i);
    forall i: nat | i < n
      ensures Take(s, logs(i), c) == logs(i + 1)
    {
      ExemptPasses(s, c, i);
      ExemptStep(s, c, i);
    }
    RunRepeated(s, c, n, logs);
  }

  /** An exempt tool does reach twice its limit without a human, and no more, whatever the limit is. */
  lemma ExemptToolPassesLimit(s: Setting, key: Key, now: int, n: nat) returns (calls: seq<Call>)
    requires Exempt(key.tool)
    requires Within(DayLimit(s, key), 2, n) && Within(MonthLimit(s, key), 2, n)
    ensures |calls| == n && forall c <- calls :: c == Invoke(key, now, false, Completed)
    ensures UnattendedOnDay(RunCalls(s, calls).executed, key, DayOf(now)) == n
    ensures UnattendedInMonth(s, RunCalls(s, calls).executed, key, s.monthOf(DayOf(now))) == n
  {
    var c := Invoke(key, now, false, Completed);
    calls := Repeated(c, n);
    ExemptRepeats(s, c, n);
    RepeatedCounts(s, Entry(c), n);
  }

  // ----- for which tools the bounds hold -----

  /** The calls of the key go through the gateway and none of them returns before the counter. */
  ghost predicate StayOnPath(calls: seq<Call>, key: Key, attended: bool) {
    forall c <- calls | c.key == key && (attended || !Approved(c)) :: c.Invoke? && c.ending != LeftEarly
  }

  /** Under all settings, in all runs: at most the limit without a human. */
  ghost predicate NeverPastLimitAlone(tool: Text) {
    forall s, calls, key: Key | key.tool == tool && StayOnPath(calls, key, false) ::
      UnattendedWithin(s, RunCalls(s, calls).executed, key, 1)
  }

  /** Under all settings, in all runs: at most twice the limit. */
  ghost predicate NeverPastTwice(tool: Text) {
    forall s, calls, key: Key | key.tool == tool && StayOnPath(calls, key, true) ::
      AllWithin(s, RunCalls(s, calls).executed, key, 2)
  }

  /** The setting in which everybody may use the tool once a day and once a month. */
  function OnceOnly(tool: Text): (s: Setting)
    ensures forall org, employee :: DayLimit(s, Key(org, employee, tool)) == Some(1)
    ensures forall org, employee :: MonthLimit(s, Key(org, employee, tool)) == Some(1)
  {
    var limits: map<Text, RawLimit> := map[tool := Obj(Limit(Finite(1.0), Finite(1.0)))];
    Setting((org, employee) => Some(limits), day => 0)
  }

  lemma DeletePassesTwice(tool: Text)
    requires IsDelete(tool)
    ensures !NeverPastTwice(tool) && !NeverPastLimitAlone(tool)
  {
    var s, key := OnceOnly(tool), Key([], [], tool);
    var calls := DeletesAreUnbounded(s, key, 0, 3);
    var log := RunCalls(s, calls).executed;
    CountSubset(log, (e: Executed) => e.key == key && DayOf(e.at) == 0 && !e.approved,
                (e: Executed) => e.key == key && DayOf(e.at) == 0);
    assert !Within(DayLimit(s, key), 2, OnDay(log, key, 0));
    assert !Within(DayLimit(s, key), 1, UnattendedOnDay(log, key, 0));
    assert StayOnPath(calls, key, true) && StayOnPath(calls, key, false);
    assert !AllWithin(s, log, key, 2) && !UnattendedWithin(s, log, key, 1);
  }

  lemma ExemptPassesAlone(tool: Text)
    requires Exempt(tool)
    ensures !NeverPastLimitAlone(tool)
  {
    var s, key := OnceOnly(tool), Key([], [], tool);
    var calls := ExemptToolPassesLimit(s, key, 0, 2);
    var log := RunCalls(s, calls).executed;
    assert !Within(DayLimit(s, key), 1, UnattendedOnDay(log, key, 0));
    assert StayOnPath(calls, key, false) && !UnattendedWithin(s, log, key, 1);
  }

  /**
    The tools the limits hold for, on the path of the counter: twice the limit for
    all but deletions, and the limit itself without a human for all but deletions
    and the two tools that never wait.
   */
  lemma ToolsBoundedExactly(tool: Text)
    ensures NeverPastTwice(tool) <==> tool != Literal("comm.delete")
    ensures NeverPastLimitAlone(tool)
       <==> tool != Literal("comm.delete") && tool != Literal("tools.ping") && tool != Literal("audit.append")
  {
    if IsDelete(tool) {
      DeletePassesTwice(tool);
    } else {
      forall s, calls, key: Key | key.tool == tool && StayOnPath(calls, key, true)
        ensures AllWithin(s, RunCalls(s, calls).executed, key, 2)
      {
        assert AllAccounted(calls, key, true);
        RunIsSafe(s, calls, key);
      }
      if Exempt(tool) {
        ExemptPassesAlone(tool);
      } else {
        forall s, calls, key: Key | key.tool == tool && StayOnPath(calls, key, false)
          ensures UnattendedWithin(s, RunCalls(s, calls).executed, key, 1)
        {
          assert AllAccounted(calls, key, false);
          RunIsSafe(s, calls, key);
        }
      }
    }
  }

  /**
    The stop comes no sooner than it has to: while nothing is counted for a later
    day, a call is refused exactly when the counters of its day or its month have
    come to twice the limit, and passes without approval exactly when neither limit
    is used up or the tool is exempt.
   */
  lemma StopsExactly(s: Setting, log: seq<Executed>, key: Key, now: int)
    requires forall e <- log :: DayOf(e.at) <= DayOf(now)
    ensures var day, month := OnDay(log, key, DayOf(now)), InMonth(s, log, key, s.monthOf(DayOf(now)));
      && (Judge(s, log, key, now) == Deny
          <==> || (DayLimit(s, key).Some? && day >= 2 * DayLimit(s, key).value)
               || (MonthLimit(s, key).Some? && month >= 2 * MonthLimit(s, key).value))
      && (Judge(s, log, key, now) == Allow
          <==> && (DayLimit(s, key).Some? ==> day < DayLimit(s, key).value)
               && (MonthLimit(s, key).Some? ==> month < MonthLimit(s, key).value))
      && (Passes(s, log, key, now, false)
          <==> Judge(s, log, key, now) == Allow || (Exempt(key.tool) && Judge(s, log, key, now) != Deny))
  {
    TodayExact(log, key, now);
    MonthExact(s, log, key, now);
    if LimitFor(s, key).Some? {
      DecisionExactly(LimitFor(s, key).value, CountToday(log, key, now), CountThisMonth(s, log, key, now));
    }
  }

  lemma MonthExact(s: Setting, log: seq<Executed>, key: Key, now: int)
    ensures CountThisMonth(s, log, key, now) == InMonth(s, log, key, s.monthOf(DayOf(now)))
  {
    var month := s.monthOf(DayOf(now));
    CountSame(log, (e: Executed) => e.key == key && s.monthOf(DayOf(e.at)) == s.monthOf(DayOf(now)),
              (e: Executed) => e.key == key && s.monthOf(DayOf(e.at)) == month);
  }
}
