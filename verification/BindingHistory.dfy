/**
  What the gate answers, read off the history of calls alone. Nothing in the
  predicates of this module looks at a store except the one the run starts from.
 */
module BindingHistory {
  import opened Options
  import opened CodeUnits
  import opened Bindings

  // ----- events of a history -----

  /** A row for `e` is there after `calls`. */
  ghost predicate Exists(s0: Store, e: Text, calls: seq<Call>) {
    At(s0, e).row.Some? || exists k :: 0 <= k < |calls| && Creates(calls[k].op, e)
  }

  ghost predicate StartsAs(s0: Store, e: Text, status: Status) {
    At(s0, e).row.Some? && At(s0, e).row.value.status == status
  }

  /** A revoke that found a row. */
  ghost predicate WasRevoked(s0: Store, e: Text, calls: seq<Call>) {
    || StartsAs(s0, e, Revoked)
    || exists k :: 0 <= k < |calls| && calls[k].op == Revoke(e) && Exists(s0, e, calls[..k])
  }

  predicate IsLink(op: Op, e: Text) {
    op.LinkAgent? && op.employee == e && Trim(op.agent) != []
  }

  /** A link with a usable agent id that came before any revoke. */
  ghost predicate WasLinked(s0: Store, e: Text, calls: seq<Call>) {
    || (At(s0, e).row.Some? && At(s0, e).row.value.agentId.Some?)
    || exists k :: 0 <= k < |calls| && IsLink(calls[k].op, e) && !WasRevoked(s0, e, calls[..k])
  }

  /** The calls that repair a broken credential. */
  predicate Mends(op: Op, e: Text) {
    IsLink(op, e) || (op.employee == e && (op.Rotate? || op.HealthSuccess?))
  }

  ghost predicate NoMendFrom(e: Text, calls: seq<Call>, from: nat) {
    forall j | from <= j < |calls| :: !Mends(calls[j].op, e)
  }

  /** The latest of the health failures and repairs of `e` is a failure. */
  ghost predicate IsBroken(s0: Store, e: Text, calls: seq<Call>) {
    || (StartsAs(s0, e, NeedsReauth) && NoMendFrom(e, calls, 0))
    || exists k :: 0 <= k < |calls| && FailsAt(s0, e, calls, k) && NoMendFrom(e, calls, k + 1)
  }

  ghost predicate FailsAt(s0: Store, e: Text, calls: seq<Call>, k: nat)
    requires k < |calls|
  {
    calls[k].op.HealthFailure? && calls[k].op.employee == e && Exists(s0, e, calls[..k])
  }

  /** The gate's answer as a reader of the history would give it. */
  ghost function HistoryVerdict(s0: Store, e: Text, calls: seq<Call>): Verdict {
    if !Exists(s0, e, calls) then NotFound
    else if WasRevoked(s0, e, calls) then DeniedRevoked
    else if !WasLinked(s0, e, calls) then Unbound
    else if IsBroken(s0, e, calls) then DeniedReauth
    else Executable
  }

  // ----- each predicate, one call further -----

  lemma ExistsNext(s0: Store, e: Text, calls: seq<Call>, c: Call)
    ensures Exists(s0, e, calls + [c]) <==> Exists(s0, e, calls) || Creates(c.op, e)
  {
    var all := calls + [c];
    if Creates(c.op, e) { assert all[|calls|] == c; }
    if k :| 0 <= k < |calls| && Creates(calls[k].op, e) { assert all[k] == calls[k]; }
  }

  lemma WasRevokedNext(s0: Store, e: Text, calls: seq<Call>, c: Call)
    ensures WasRevoked(s0, e, calls + [c])
       <==> WasRevoked(s0, e, calls) || (c.op == Revoke(e) && Exists(s0, e, calls))
  {
    var all := calls + [c];
    assert all[|calls|] == c && all[..|calls|] == calls;
    forall k | 0 <= k < |calls|
      ensures all[k] == calls[k] && all[..k] == calls[..k]
    {
    }
  }

  lemma WasLinkedNext(s0: Store, e: Text, calls: seq<Call>, c: Call)
    ensures WasLinked(s0, e, calls + [c])
       <==> WasLinked(s0, e, calls) || (IsLink(c.op, e) && !WasRevoked(s0, e, calls))
  {
    var all := calls + [c];
    assert all[|calls|] == c && all[..|calls|] == calls;
    forall k | 0 <= k < |calls|
      ensures all[k] == calls[k] && all[..k] == calls[..k]
    {
    }
  }

  lemma NoMendNext(e: Text, calls: seq<Call>, c: Call, from: nat)
    requires from <= |calls|
    ensures NoMendFrom(e, calls + [c], from) <==> NoMendFrom(e, calls, from) && !Mends(c.op, e)
  {
    var all := calls + [c];
    assert all[|calls|] == c;
    forall j | 0 <= j < |calls|
      ensures all[j] == calls[j]
    {
    }
  }

  lemma IsBrokenNext(s0: Store, e: Text, calls: seq<Call>, c: Call)
    ensures IsBroken(s0, e, calls + [c])
       <==> || (c.op.HealthFailure? && c.op.employee == e && Exists(s0, e, calls))
            || (IsBroken(s0, e, calls) && !Mends(c.op, e))
  {
    var all := calls + [c];
    var n := |calls|;
    assert all[n] == c && all[..n] == calls;
    NoMendNext(e, calls, c, 0);
    forall k | 0 <= k < n
      ensures FailsAt(s0, e, all, k) <==> FailsAt(s0, e, calls, k)
      ensures NoMendFrom(e, all, k + 1) <==> NoMendFrom(e, calls, k + 1) && !Mends(c.op, e)
    {
      assert all[k] == calls[k] && all[..k] == calls[..k];
      NoMendNext(e, calls, c, k + 1);
    }
    assert FailsAt(s0, e, all, n) <==> c.op.HealthFailure? && c.op.employee == e && Exists(s0, e, calls);
    assert NoMendFrom(e, all, n + 1);
  }

  // ----- the row agrees with the history -----

  /** What is held for `e` says what the history `calls` from `s0` says. */
  ghost predicate Agrees(s0: Store, e: Text, calls: seq<Call>, v: View) {
    && (v.row.Some? <==> Exists(s0, e, calls))
    && (WasRevoked(s0, e, calls) <==> v.row.Some? && v.row.value.status == Revoked)
    && (WasLinked(s0, e, calls) <==> v.row.Some? && v.row.value.agentId.Some?)
    && (!WasRevoked(s0, e, calls) ==>
          (IsBroken(s0, e, calls) <==> v.row.Some? && v.row.value.status == NeedsReauth))
  }

  /** One call keeps the agreement; nothing here looks below the names of the predicates. */
  lemma AgreesNext(s0: Store, e: Text, before: seq<Call>, c: Call, v: View)
    requires ViewOk(v, e) && Agrees(s0, e, before, v)
    ensures Agrees(s0, e, before + [c], if c.op.employee == e then StepView(v, c).0 else v)
  {
    ExistsNext(s0, e, before, c);
    WasRevokedNext(s0, e, before, c);
    WasLinkedNext(s0, e, before, c);
    IsBrokenNext(s0, e, before, c);
  }

  lemma {:induction false} RunAgrees(s0: Store, e: Text, calls: seq<Call>)
    requires Valid(s0)
    ensures Agrees(s0, e, calls, At(Run(s0, calls), e))
  {
    if calls == [] {
      assert ViewOk(At(s0, e), e);
    } else {
      var before, c := calls[..|calls| - 1], calls[|calls| - 1];
      assert calls == before + [c];
      RunAgrees(s0, e, before);
      RunKeepsValid(s0, before);
      assert ViewOk(At(Run(s0, before), e), e);
      AgreesNext(s0, e, before, c, At(Run(s0, before), e));
      StepAt(Run(s0, before), c, e);
    }
  }

  /**
    After any calls from any valid store the gate's answer is the one the history
    gives; the codes for a degraded or otherwise unhealthy binding never occur.
   */
  lemma {:induction false} GateReadsHistory(s0: Store, e: Text, calls: seq<Call>)
    requires Valid(s0)
    ensures AssertExecutable(Run(s0, calls), e) == HistoryVerdict(s0, e, calls)
  {
    RunAgrees(s0, e, calls);
    RunKeepsValid(s0, calls);
    assert ViewOk(At(Run(s0, calls), e), e);
  }

  // ----- the same, from an empty store -----

  ghost predicate LinkOccurs(e: Text, calls: seq<Call>) {
    exists k :: 0 <= k < |calls| && IsLink(calls[k].op, e)
  }

  /** Some call among the first `k` created the row. */
  ghost predicate CreatedBefore(e: Text, calls: seq<Call>, k: nat)
    requires k <= |calls|
  {
    exists j :: 0 <= j < k && Creates(calls[j].op, e)
  }

  ghost predicate EffectiveRevoke(e: Text, calls: seq<Call>) {
    exists k :: 0 <= k < |calls| && calls[k].op == Revoke(e) && CreatedBefore(e, calls, k)
  }

  ghost predicate UnrepairedFailure(e: Text, calls: seq<Call>) {
    exists k :: 0 <= k < |calls| && calls[k].op.HealthFailure? && calls[k].op.employee == e
             && CreatedBefore(e, calls, k) && NoMendFrom(e, calls, k + 1)
  }

  lemma ExistsFromEmpty(e: Text, calls: seq<Call>, k: nat)
    requires k <= |calls|
    ensures Exists(EMPTY_STORE, e, calls[..k]) <==> CreatedBefore(e, calls, k)
  {
    assert forall j | 0 <= j < k :: calls[..k][j] == calls[j];
  }

  lemma RevokedFromEmpty(e: Text, calls: seq<Call>)
    ensures WasRevoked(EMPTY_STORE, e, calls) <==> EffectiveRevoke(e, calls)
  {
    forall k | 0 <= k < |calls|
      ensures Exists(EMPTY_STORE, e, calls[..k]) <==> CreatedBefore(e, calls, k)
    {
      ExistsFromEmpty(e, calls, k);
    }
  }

  lemma BrokenFromEmpty(e: Text, calls: seq<Call>)
    ensures IsBroken(EMPTY_STORE, e, calls) <==> UnrepairedFailure(e, calls)
  {
    forall k | 0 <= k < |calls|
      ensures FailsAt(EMPTY_STORE, e, calls, k)
         <==> calls[k].op.HealthFailure? && calls[k].op.employee == e && CreatedBefore(e, calls, k)
    {
      ExistsFromEmpty(e, calls, k);
    }
  }

  /** A revoke seen in a prefix is seen in the whole history. */
  lemma RevokedPrefix(s0: Store, e: Text, calls: seq<Call>, k: nat)
    requires k <= |calls| && WasRevoked(s0, e, calls[..k])
    ensures WasRevoked(s0, e, calls)
  {
    if i :| 0 <= i < k && calls[..k][i].op == Revoke(e) && Exists(s0, e, calls[..k][..i]) {
      assert calls[..k][..i] == calls[..i] && calls[i].op == Revoke(e);
    }
  }

  lemma LinkedFromEmpty(e: Text, calls: seq<Call>)
    requires !WasRevoked(EMPTY_STORE, e, calls)
    ensures WasLinked(EMPTY_STORE, e, calls) <==> LinkOccurs(e, calls)
  {
    forall k | 0 <= k < |calls|
      ensures !WasRevoked(EMPTY_STORE, e, calls[..k])
    {
      if WasRevoked(EMPTY_STORE, e, calls[..k]) { RevokedPrefix(EMPTY_STORE, e, calls, k); }
    }
  }

  /**
    From an empty store an employee is executable exactly when it was linked at
    least once, no revoke took effect, and no health failure is left unrepaired.
   */
  lemma {:induction false} ExecutableFromEmpty(e: Text, calls: seq<Call>)
    ensures AssertExecutable(Run(EMPTY_STORE, calls), e) == Executable
       <==> LinkOccurs(e, calls) && !EffectiveRevoke(e, calls) && !UnrepairedFailure(e, calls)
  {
    GateReadsHistory(EMPTY_STORE, e, calls);
    RevokedFromEmpty(e, calls);
    BrokenFromEmpty(e, calls);
    if !WasRevoked(EMPTY_STORE, e, calls) {
      LinkedFromEmpty(e, calls);
      if k :| 0 <= k < |calls| && IsLink(calls[k].op, e) {
        assert Creates(calls[k].op, e);
      }
    }
  }

  // ----- one employee at a time -----

  function CallsOf(e: Text, calls: seq<Call>): seq<Call> {
    if calls == [] then []
    else
      var rest := CallsOf(e, calls[..|calls| - 1]);
      var c := calls[|calls| - 1];
      if c.op.employee == e then rest + [c] else rest
  }

  /** What the store holds for one employee depends on that employee's calls only. */
  lemma {:induction false} OnlyOwnCallsMatter(s: Store, e: Text, calls: seq<Call>)
    ensures At(Run(s, calls), e) == At(Run(s, CallsOf(e, calls)), e)
  {
    if calls != [] {
      var before, c := calls[..|calls| - 1], calls[|calls| - 1];
      OnlyOwnCallsMatter(s, e, before);
      StepAt(Run(s, before), c, e);
      if c.op.employee == e {
        var own := CallsOf(e, before);
        assert (own + [c])[..|own|] == own;
        StepAt(Run(s, own), c, e);
      }
    }
  }

  // ----- what every run keeps -----

  /** `v'` is a later state of `v`: same row, same org, the agent not lost. */
  predicate Later(v: View, v': View) {
    v.row.Some? ==>
      && v'.row.Some?
      && v'.row.value.orgId == v.row.value.orgId
      && v'.row.value.createdAt == v.row.value.createdAt
      && (v.row.value.agentId.Some? ==> v'.row.value.agentId.Some?)
      && v'.row.value.generation >= v.row.value.generation
  }

  lemma StepIsLater(v: View, c: Call)
    ensures Later(v, StepView(v, c).0)
  {
  }

  /** Rows never go away, keep their org, creation time and place, and never lose their agent. */
  lemma {:induction false} RowsPersist(s: Store, calls: seq<Call>, e: Text)
    ensures Later(At(s, e), At(Run(s, calls), e))
    ensures s.order <= Run(s, calls).order
  {
    if calls != [] {
      var before, c := calls[..|calls| - 1], calls[|calls| - 1];
      RowsPersist(s, before, e);
      StepAt(Run(s, before), c, e);
      StepIsLater(At(Run(s, before), e), c);
    }
  }

  /** A row created during a run belongs for good to the org named by the call that created it. */
  lemma {:induction false} OrgFixedAtCreation(s: Store, c: Call, calls: seq<Call>)
    requires At(s, c.op.employee).row.None? && Creates(c.op, c.op.employee)
    ensures var v := At(Run(Step(s, c).0, calls), c.op.employee);
      v.row.Some? && v.row.value.orgId == c.op.org && v.row.value.createdAt == c.now
  {
    StepAt(s, c, c.op.employee);
    RowsPersist(Step(s, c).0, calls, c.op.employee);
  }

  /** A link that is accepted stores the trimmed agent id, and the workspace only when one is named. */
  lemma LinkStores(v: View, c: Call)
    requires v.row.Some? && v.row.value.status != Revoked && IsLink(c.op, c.op.employee)
    ensures var b, b' := v.row.value, StepView(v, c).0.row.value;
      && StepView(v, c).1 == Returned(b')
      && Truthy(b'.agentId) && IsTrimmed(b'.agentId.value) && b'.agentId == Some(Trim(c.op.agent))
      && b'.workspaceId == (match c.op.workspace
                            case Absent => b.workspaceId
                            case Given(w) => if Truthy(w) then w else None)
      && b'.lastError == None && b'.generation == b.generation
  {
    TrimFixed(c.op.agent);
  }

  /** Everything a revoked employee can never change again. */
  predicate Frozen(v: View, v': View) {
    && v.row.Some? && v'.row.Some? && v'.secret == v.secret
    && v'.row.value == v.row.value.(lastError := v'.row.value.lastError, updatedAt := v'.row.value.updatedAt)
  }

  lemma StepFrozen(v: View, c: Call)
    requires v.row.Some? && v.row.value.status == Revoked
    ensures Frozen(v, StepView(v, c).0)
  {
  }

  /** Revocation is final: nothing but the last error and the time stamp moves afterwards. */
  lemma {:induction false} RevocationIsFinal(s: Store, calls: seq<Call>, e: Text)
    requires StartsAs(s, e, Revoked)
    ensures Frozen(At(s, e), At(Run(s, calls), e))
    ensures AssertExecutable(Run(s, calls), e) == DeniedRevoked
  {
    if calls != [] {
      var before, c := calls[..|calls| - 1], calls[|calls| - 1];
      RevocationIsFinal(s, before, e);
      StepAt(Run(s, before), c, e);
      StepFrozen(At(Run(s, before), e), c);
    }
  }

  predicate IsMaintenance(op: Op) {
    op.EnsureRow? || op.BumpGeneration? || op.MoveFingerprint? || op.UpdateWake?
  }

  lemma MaintenanceStep(v: View, c: Call)
    requires v.row.Some? && IsMaintenance(c.op)
    ensures StepView(v, c).0.row.Some? && ViewVerdict(StepView(v, c).0) == ViewVerdict(v)
  {
  }

  /** Bumps, fingerprint moves and wake edits of a row that is there never change the gate's answer. */
  lemma {:induction false} GateIgnoresMaintenance(s: Store, calls: seq<Call>, e: Text)
    requires At(s, e).row.Some?
    requires forall i | 0 <= i < |calls| :: IsMaintenance(calls[i].op)
    ensures At(Run(s, calls), e).row.Some?
    ensures AssertExecutable(Run(s, calls), e) == AssertExecutable(s, e)
  {
    if calls != [] {
      var before, c := calls[..|calls| - 1], calls[|calls| - 1];
      GateIgnoresMaintenance(s, before, e);
      StepAt(Run(s, before), c, e);
      MaintenanceStep(At(Run(s, before), e), c);
    }
  }

  // ----- generations -----

  predicate IsCredentialEvent(op: Op, e: Text) {
    op.employee == e && (op.Rotate? || op.BumpGeneration?)
  }

  /** Rotations and bumps of `e` before any revoke. */
  ghost function CredentialEvents(s0: Store, e: Text, calls: seq<Call>): nat {
    if calls == [] then 0
    else
      var before, c := calls[..|calls| - 1], calls[|calls| - 1];
      CredentialEvents(s0, e, before)
      + if IsCredentialEvent(c.op, e) && !WasRevoked(s0, e, before) then 1 else 0
  }

  function GenerationOf(s: Store, e: Text): nat {
    GenerationIn(At(s, e))
  }

  function GenerationIn(v: View): nat {
    if v.row.Some? then v.row.value.generation else 0
  }

  lemma GenerationStep(v: View, c: Call)
    ensures GenerationIn(StepView(v, c).0)
         == GenerationIn(v) + if IsCredentialEvent(c.op, c.op.employee)
                                 && !(v.row.Some? && v.row.value.status == Revoked) then 1 else 0
  {
  }

  /** The generation is its starting value plus the number of credential events. */
  lemma {:induction false} GenerationCountsCredentialEvents(s0: Store, e: Text, calls: seq<Call>)
    requires Valid(s0)
    ensures GenerationOf(Run(s0, calls), e) == GenerationOf(s0, e) + CredentialEvents(s0, e, calls)
  {
    if calls != [] {
      var before, c := calls[..|calls| - 1], calls[|calls| - 1];
      GenerationCountsCredentialEvents(s0, e, before);
      RunAgrees(s0, e, before);
      StepAt(Run(s0, before), c, e);
      GenerationStep(At(Run(s0, before), e), c);
    }
  }

  // ----- fingerprints -----

  /** A rotation of a row not revoked, or a move that finds the fingerprint it expects. */
  predicate Accepts(v: View, op: Op) {
    match op
    case Rotate(_, _, _) => v.row.None? || v.row.value.status != Revoked
    case MoveFingerprint(e, _, expected, _) =>
      Creates(op, e) && v.row.Some? && v.row.value.status != Revoked && v.row.value.fingerprint == Some(expected)
    case _ => false
  }

  /** Call `c`, made in store `s`, writes a fingerprint for `e`. */
  predicate WritesFingerprint(s: Store, c: Call, e: Text) {
    c.op.employee == e && Accepts(At(s, e), c.op)
  }

  predicate Writer(op: Op) {
    op.Rotate? || op.MoveFingerprint?
  }

  function WrittenFingerprint(op: Op): Text {
    match op
    case Rotate(_, _, fp) => fp
    case MoveFingerprint(_, _, _, next) => next
    case _ => []
  }

  function FingerprintIn(v: View): Option<Text> {
    if v.row.Some? then v.row.value.fingerprint else None
  }

  function FingerprintOf(s: Store, e: Text): Option<Text> {
    FingerprintIn(At(s, e))
  }

  /** One call changes at most its own employee's fingerprint: to the one it writes, or not at all. */
  lemma FingerprintStep(s: Store, c: Call, e: Text)
    ensures FingerprintOf(Step(s, c).0, e)
         == if WritesFingerprint(s, c, e) then Some(WrittenFingerprint(c.op)) else FingerprintOf(s, e)
    ensures WritesFingerprint(s, c, e) ==> Writer(c.op)
  {
    StepAt(s, c, e);
  }

  /** The `k`-th call of the run writes a fingerprint for `e`. */
  predicate WritesAt(s0: Store, e: Text, calls: seq<Call>, k: nat)
    requires k < |calls|
  {
    WritesFingerprint(Run(s0, calls[..k]), calls[k], e)
  }

  /** The outcome of calling `c` after `before`. */
  function OutcomeAfter(s: Store, before: seq<Call>, c: Call): Outcome {
    Step(Run(s, before), c).1
  }

  /** The answers a run of calls gives, in order. */
  function Outcomes(s: Store, calls: seq<Call>): (r: seq<Outcome>)
    ensures |r| == |calls|
  {
    if calls == [] then []
    else
      var n := |calls| - 1;
      Outcomes(s, calls[..n]) + [OutcomeAfter(s, calls[..n], calls[n])]
  }

  /** What is accepted is what the call reports as done. */
  lemma AcceptedIsReported(s: Store, c: Call)
    ensures c.op.Rotate? ==> (Accepts(At(s, c.op.employee), c.op) <==> Step(s, c).1.Returned?)
    ensures c.op.MoveFingerprint? ==> Step(s, c).1 == Swapped(Accepts(At(s, c.op.employee), c.op))
  {
  }

  lemma {:induction false} OutcomeAt(s: Store, calls: seq<Call>, k: nat)
    requires k < |calls|
    ensures Outcomes(s, calls)[k] == OutcomeAfter(s, calls[..k], calls[k])
  {
    var n := |calls| - 1;
    var before := calls[..n];
    assert Outcomes(s, calls) == Outcomes(s, before) + [OutcomeAfter(s, before, calls[n])];
    if k < n {
      OutcomeAt(s, before, k);
      assert before[..k] == calls[..k] && before[k] == calls[k];
      assert Outcomes(s, calls)[k] == Outcomes(s, before)[k];
    }
  }

  /** The answer of a call tells whether it wrote a fingerprint: a rotation that returned, a move that swapped. */
  predicate ReportsWrite(op: Op, outcome: Outcome) {
    (op.Rotate? && outcome.Returned?) || (op.MoveFingerprint? && outcome == Swapped(true))
  }

  /** A call of a run writes a fingerprint for an employee exactly when it names it and reports success. */
  lemma WritesAreReported(s0: Store, e: Text, calls: seq<Call>, k: nat)
    requires k < |calls|
    ensures WritesAt(s0, e, calls, k)
       <==> calls[k].op.employee == e && ReportsWrite(calls[k].op, Outcomes(s0, calls)[k])
  {
    OutcomeAt(s0, calls, k);
    AcceptedIsReported(Run(s0, calls[..k]), calls[k]);
  }

  /** Each call of a run decides whether the fingerprint is the one it writes or the one before. */
  lemma FingerprintAfter(s0: Store, e: Text, calls: seq<Call>, k: nat)
    requires k < |calls|
    ensures FingerprintOf(Run(s0, calls[..k + 1]), e)
         == if WritesAt(s0, e, calls, k) then Some(WrittenFingerprint(calls[k].op))
            else FingerprintOf(Run(s0, calls[..k]), e)
  {
    assert calls[..k + 1][..k] == calls[..k];
    FingerprintStep(Run(s0, calls[..k]), calls[k], e);
  }

  /** Of the first `n` calls the `k`-th is the last that writes a fingerprint for `e`. */
  ghost predicate LastWriteAt(s0: Store, e: Text, calls: seq<Call>, k: nat, n: nat)
    requires k < n <= |calls|
  {
    WritesAt(s0, e, calls, k) && forall j | k < j < n :: !WritesAt(s0, e, calls, j)
  }

  lemma {:induction false} FingerprintStays(s0: Store, e: Text, calls: seq<Call>, k: nat, n: nat)
    requires k <= n <= |calls| && forall j | k <= j < n :: !WritesAt(s0, e, calls, j)
    ensures FingerprintOf(Run(s0, calls[..n]), e) == FingerprintOf(Run(s0, calls[..k]), e)
  {
    if k < n {
      FingerprintStays(s0, e, calls, k, n - 1);
      FingerprintAfter(s0, e, calls, n - 1);
    }
  }

  /**
    The fingerprint after `n` calls is the one the last successful rotation or move
    among them wrote, and the starting one when there was none.
   */
  lemma {:induction false} FingerprintIsLastWritten(s0: Store, e: Text, calls: seq<Call>, n: nat)
    requires n <= |calls|
    ensures forall k | 0 <= k < n && LastWriteAt(s0, e, calls, k, n) ::
        FingerprintOf(Run(s0, calls[..n]), e) == Some(WrittenFingerprint(calls[k].op))
    ensures (forall k | 0 <= k < n :: !WritesAt(s0, e, calls, k))
        ==> FingerprintOf(Run(s0, calls[..n]), e) == FingerprintOf(s0, e)
  {
    forall k | 0 <= k < n && LastWriteAt(s0, e, calls, k, n)
      ensures FingerprintOf(Run(s0, calls[..n]), e) == Some(WrittenFingerprint(calls[k].op))
    {
      FingerprintAfter(s0, e, calls, k);
      FingerprintStays(s0, e, calls, k + 1, n);
    }
    if forall k | 0 <= k < n :: !WritesAt(s0, e, calls, k) {
      FingerprintStays(s0, e, calls, 0, n);
    }
  }

  /** A well-formed attempt to replace fingerprint `from` of `e` by another one. */
  predicate IsSwapFrom(op: Op, e: Text, from: Text) {
    op.MoveFingerprint? && Creates(op, e) && op.expected == from && op.next != from
  }

  lemma SwapStep(v: View, c: Call, e: Text, from: Text)
    requires IsSwapFrom(c.op, e, from)
    requires v.row.Some? && v.row.value.status != Revoked
    ensures var (v', outcome) := StepView(v, c);
      && v'.row.Some? && v'.row.value.status != Revoked
      && outcome == Swapped(v.row.value.fingerprint == Some(from))
      && v'.row.value.fingerprint
         == if v.row.value.fingerprint == Some(from) then Some(c.op.next) else v.row.value.fingerprint
  {
  }

  /**
    Any number of writers that all expect fingerprint `from` and all write
    something else: the first succeeds, every later one is refused, and the
    fingerprint that stays is the first writer's.
   */
  lemma {:induction false} SwapHasOneWinner(s: Store, calls: seq<Call>, e: Text, from: Text)
    requires At(s, e).row.Some? && At(s, e).row.value.status != Revoked
    requires FingerprintOf(s, e) == Some(from)
    requires calls != []
    requires forall i | 0 <= i < |calls| :: IsSwapFrom(calls[i].op, e, from)
    ensures forall i | 0 <= i < |calls| :: Outcomes(s, calls)[i] == Swapped(i == 0)
    ensures At(Run(s, calls), e).row.Some? && At(Run(s, calls), e).row.value.status != Revoked
    ensures FingerprintOf(Run(s, calls), e) == Some(WrittenFingerprint(calls[0].op))
  {
    var n := |calls| - 1;
    var before, c := calls[..n], calls[n];
    if n > 0 {
      SwapHasOneWinner(s, before, e, from);
      assert IsSwapFrom(calls[0].op, e, from);
    }
    StepAt(Run(s, before), c, e);
    SwapStep(At(Run(s, before), e), c, e, from);
  }

  /** No two employees hold the same non-empty fingerprint. */
  ghost predicate DistinctFingerprints(s: Store) {
    forall a, b | a != b && Truthy(FingerprintOf(s, a)) :: FingerprintOf(s, a) != FingerprintOf(s, b)
  }

  /** Every fingerprint a call of the run is to write is new: held by nobody at the start, named by no earlier call. */
  ghost predicate FreshWrites(s0: Store, calls: seq<Call>) {
    && (forall i, e | 0 <= i < |calls| && Writer(calls[i].op) ::
          FingerprintOf(s0, e) != Some(WrittenFingerprint(calls[i].op)))
    && (forall i, j | 0 <= i < j < |calls| && Writer(calls[i].op) && Writer(calls[j].op) ::
          WrittenFingerprint(calls[i].op) != WrittenFingerprint(calls[j].op))
  }

  /** A fingerprint held after the run was held at the start or named by some call. */
  lemma {:induction false} FingerprintOrigin(s0: Store, calls: seq<Call>, e: Text)
    ensures var fp := FingerprintOf(Run(s0, calls), e);
      || fp == FingerprintOf(s0, e)
      || exists i :: 0 <= i < |calls| && Writer(calls[i].op) && fp == Some(WrittenFingerprint(calls[i].op))
  {
    if calls != [] {
      var n := |calls| - 1;
      var before, c := calls[..n], calls[n];
      FingerprintStep(Run(s0, before), c, e);
      FingerprintOrigin(s0, before, e);
      if i :| 0 <= i < n && Writer(before[i].op)
              && FingerprintOf(Run(s0, before), e) == Some(WrittenFingerprint(before[i].op)) {
        assert calls[i] == before[i];
      }
    }
  }

  /** As long as badges are minted fresh, a badge identifies one employee. */
  lemma {:induction false} FreshBadgesStayDistinct(s0: Store, calls: seq<Call>)
    requires DistinctFingerprints(s0) && FreshWrites(s0, calls)
    ensures DistinctFingerprints(Run(s0, calls))
  {
    if calls != [] {
      var n := |calls| - 1;
      var before, c := calls[..n], calls[n];
      assert FreshWrites(s0, before) by {
        assert forall i | 0 <= i < n :: before[i] == calls[i];
      }
      FreshBadgesStayDistinct(s0, before);
      var s := Run(s0, before);
      forall a
        ensures FingerprintOf(Run(s0, calls), a)
             == if WritesFingerprint(s, c, a) then Some(WrittenFingerprint(c.op)) else FingerprintOf(s, a)
        ensures Writer(c.op) ==> FingerprintOf(s, a) != Some(WrittenFingerprint(c.op))
      {
        FingerprintStep(s, c, a);
        FingerprintOrigin(s0, before, a);
        if i :| 0 <= i < n && Writer(before[i].op)
                && FingerprintOf(s, a) == Some(WrittenFingerprint(before[i].op)) {
          assert calls[i] == before[i];
        }
      }
    }
  }

  /** After a rotation to another badge the previous one opens nothing. */
  lemma RotationRetiresBadge(s: Store, c: Call, badge: Text)
    requires DistinctFingerprints(s)
    requires c.op.Rotate? && c.op.newFingerprint != badge && badge != []
    requires FingerprintOf(s, c.op.employee) == Some(badge) && !StartsAs(s, c.op.employee, Revoked)
    ensures forall e :: FingerprintOf(Step(s, c).0, e) != Some(badge)
    ensures FingerprintOf(Step(s, c).0, c.op.employee) == Some(c.op.newFingerprint)
  {
    forall e
      ensures FingerprintOf(Step(s, c).0, e) != Some(badge)
    {
      FingerprintStep(s, c, e);
    }
    FingerprintStep(s, c, c.op.employee);
  }

  // ----- wake secrets -----

  /**
    In every reachable store the public flag is set exactly when a usable secret
    is stored, and then there is a URL to wake. The getter returns that secret
    for an id without white space at its ends.
   */
  lemma {:induction false} WakeFlagIsTruthful(s0: Store, calls: seq<Call>, e: Text)
    requires Valid(s0)
    ensures var s := Run(s0, calls);
      var v := At(s, e);
      && (v.row.Some? && v.row.value.hasWake <==> v.secret.Some?)
      && (v.secret.Some? ==> Truthy(v.row.value.wakeUrl) && Truthy(v.secret) && IsTrimmed(v.secret.value))
      && (IsTrimmed(e) ==> GetWakeSecret(s, e) == v.secret.GetOr([]))
  {
    RunKeepsValid(s0, calls);
    assert ViewOk(At(Run(s0, calls), e), e);
    TrimFixed(e);
    if At(Run(s0, calls), e).secret.Some? {
      TrimFixed(At(Run(s0, calls), e).secret.value);
    }
  }

  /** The getter looks under the trimmed id: it finds a secret exactly when one is stored there. */
  lemma WakeSecretLookup(s: Store, e: Text)
    requires Valid(s)
    ensures GetWakeSecret(s, e) == At(s, Trim(e)).secret.GetOr([])
    ensures GetWakeSecret(s, e) != [] <==> Trim(e) in s.secrets
  {
    assert ViewOk(At(s, Trim(e)), Trim(e));
    if Trim(e) in s.secrets {
      TrimFixed(s.secrets[Trim(e)]);
    }
  }

  /** So under every id with white space at an end a secret can be stored that the getter does not find. */
  lemma UntrimmedIdLosesSecret(e: Text) returns (calls: seq<Call>)
    requires Trim(e) != e
    ensures var s := Run(EMPTY_STORE, calls);
      At(s, e).row.Some? && At(s, e).row.value.hasWake && At(s, e).secret.Some? && GetWakeSecret(s, e) == []
  {
    var value: Text := [0x78];
    var c := Call(0, UpdateWake(e, [0x6F], Given(Some(value)), Given(Some(value))));
    calls := [c];
    assert calls[..0] == [];
    TrimFixed(value);
    StepAt(EMPTY_STORE, c, e);
    StepAt(EMPTY_STORE, c, Trim(e));
  }
}
