/**
  The binding store as values: rows keyed by employee id, the insertion order of
  the rows, and the wake secrets kept beside them. `Step` is the specification
  every method of `BindingStore` is proved against.
 */
module Bindings {
  import opened Options
  import opened CodeUnits

  datatype Status = Unlinked | Linked | Degraded | NeedsReauth | Revoked

  datatype Binding = Binding(
    employeeId: Text,
    orgId: Text,
    agentId: Option<Text>,
    workspaceId: Option<Text>,
    generation: nat,
    fingerprint: Option<Text>,
    status: Status,
    lastSuccessAt: Option<int>,
    lastError: Option<Text>,
    wakeUrl: Option<Text>,
    hasWake: bool,
    createdAt: int,
    updatedAt: int)

  datatype Store = Store(rows: map<Text, Binding>, order: seq<Text>, secrets: map<Text, Text>)

  const EMPTY_STORE := Store(map[], [], map[])

  /** A field of an options object: left out (undefined), or given as null or a string. */
  datatype Field = Absent | Given(value: Option<Text>)

  datatype Op =
    | EnsureRow(employee: Text, org: Text)
    | LinkAgent(employee: Text, org: Text, agent: Text, workspace: Field)
    | Rotate(employee: Text, org: Text, newFingerprint: Text)
    | BumpGeneration(employee: Text, org: Text)
    | MoveFingerprint(employee: Text, org: Text, expected: Text, next: Text)
    | HealthSuccess(employee: Text)
    | HealthFailure(employee: Text, error: Text)
    | Revoke(employee: Text)
    | UpdateWake(employee: Text, org: Text, url: Field, secret: Field)

  /** One call of an operation, with the clock reading it sees. */
  datatype Call = Call(now: int, op: Op)

  datatype BindingError = BindingRevoked | AgentIdRequired

  datatype Outcome =
    | Returned(row: Binding)
    | Undefined
    | Swapped(moved: bool)
    | Threw(error: BindingError)

  function RevokedNote(): Text { Literal("revoked") }
  function HealthFailedNote(): Text { Literal("health_failed") }

  // ----- the operations on what the store holds for one employee -----

  /** The row and the wake secret stored under one employee id. */
  datatype View = View(row: Option<Binding>, secret: Option<Text>)

  function UnlinkedBinding(employee: Text, org: Text, now: int): Binding {
    Binding(employee, org, None, None, 0, None, Unlinked, None, None, None, false, now, now)
  }

  /** Writes a changed row back with a new time stamp. */
  function Touch(v: View, b: Binding, now: int): (View, Outcome) {
    var next := b.(updatedAt := now);
    (v.(row := Some(next)), Returned(next))
  }

  function Relinked(b: Binding): Status {
    if Truthy(b.agentId) then Linked else Unlinked
  }

  /** Deletes the secret, or replaces it when one is given that is not blank. */
  function PatchSecret(secret: Option<Text>, patch: Field): Option<Text> {
    match patch
    case Absent => secret
    case Given(v) => NonEmpty(Trim(v.GetOr([])))
  }

  function PatchUrl(url: Option<Text>, patch: Field): Option<Text> {
    match patch
    case Absent => url
    case Given(v) => NonEmpty(Trim(v.GetOr([])))
  }

  /** An operation on a row that is there and not revoked. */
  function StepLive(v: View, row: Binding, now: int, op: Op): (View, Outcome) {
    match op
    case EnsureRow(_, _) => (v, Returned(row))
    case LinkAgent(_, _, agent, workspace) =>
      if Trim(agent) == [] then (v, Threw(AgentIdRequired))
      else
        Touch(v, row.(agentId := Some(Trim(agent)),
                      workspaceId := if workspace.Absent? then row.workspaceId
                                     else NonEmpty(workspace.value.GetOr([])),
                      status := Linked,
                      lastError := None), now)
    case Rotate(_, _, fp) =>
      Touch(v, row.(generation := row.generation + 1, fingerprint := Some(fp),
                    status := Relinked(row), lastError := None), now)
    case BumpGeneration(_, _) =>
      Touch(v, row.(generation := row.generation + 1, lastError := None), now)
    case MoveFingerprint(_, _, expected, next) =>
      if row.fingerprint != Some(expected) then (v, Swapped(false))
      else (Touch(v, row.(fingerprint := Some(next), lastError := None), now).0, Swapped(true))
    case HealthSuccess(_) =>
      Touch(v, row.(status := Relinked(row), lastSuccessAt := Some(now), lastError := None), now)
    case HealthFailure(_, error) =>
      Touch(v, row.(status := NeedsReauth,
                    lastError := Some(if error == [] then HealthFailedNote() else error)), now)
    case Revoke(_) =>
      Touch(v, row.(status := Revoked, lastError := Some(RevokedNote())), now)
    case UpdateWake(_, _, url, secret) =>
      var nextUrl := PatchUrl(row.wakeUrl, url);
      var nextSecret := if Truthy(nextUrl) then PatchSecret(v.secret, secret) else None;
      Touch(v.(secret := nextSecret), row.(wakeUrl := nextUrl, hasWake := nextSecret.Some?), now)
  }

  /** An operation on a revoked row: only the last error and the time stamp can move. */
  function StepRevoked(v: View, row: Binding, now: int, op: Op): (View, Outcome) {
    match op
    case EnsureRow(_, _) => (v, Returned(row))
    case MoveFingerprint(_, _, _, _) => (v, Swapped(false))
    case HealthSuccess(_) => Touch(v, row.(lastError := Some(RevokedNote())), now)
    case HealthFailure(_, error) =>
      Touch(v, row.(lastError := Some(if error == [] then RevokedNote() else error)), now)
    case Revoke(_) => Touch(v, row.(lastError := Some(RevokedNote())), now)
    case _ => (v, Threw(BindingRevoked))
  }

  /** Operations that create the row of their employee when it is missing. */
  predicate Creates(op: Op, e: Text) {
    && op.employee == e
    && match op
       case HealthSuccess(_) => false
       case HealthFailure(_, _) => false
       case Revoke(_) => false
       case MoveFingerprint(_, org, expected, next) => e != [] && org != [] && expected != [] && next != []
       case _ => true
  }

  function StepView(v: View, call: Call): (View, Outcome) {
    var op := call.op;
    var creates := Creates(op, op.employee);
    if op.MoveFingerprint? && !creates then (v, Swapped(false))
    else if v.row.None? && !creates then (v, Undefined)
    else
      var row := v.row.GetOr(UnlinkedBinding(op.employee, if creates then op.org else [], call.now));
      var v1 := v.(row := Some(row));
      if row.status == Revoked then StepRevoked(v1, row, call.now, op)
      else StepLive(v1, row, call.now, op)
  }

  // ----- the whole store -----

  function At(s: Store, e: Text): View {
    View(if e in s.rows then Some(s.rows[e]) else None,
         if e in s.secrets then Some(s.secrets[e]) else None)
  }

  /** `Map.set` and `Map.delete`: a new row goes to the end of the order, an old one keeps its place. */
  function Install(s: Store, e: Text, v: View): Store {
    Store(if v.row.Some? then s.rows[e := v.row.value] else s.rows,
          if v.row.Some? && e !in s.rows then s.order + [e] else s.order,
          if v.secret.Some? then s.secrets[e := v.secret.value] else s.secrets - {e})
  }

  function Step(s: Store, call: Call): (Store, Outcome) {
    var e := call.op.employee;
    var (v, outcome) := StepView(At(s, e), call);
    (Install(s, e, v), outcome)
  }

  /** The store after a sequence of calls. */
  function Run(s: Store, calls: seq<Call>): Store {
    if calls == [] then s
    else Step(Run(s, calls[..|calls| - 1]), calls[|calls| - 1]).0
  }

  // ----- what the store is asked -----

  datatype Verdict = NotFound | DeniedRevoked | Unbound | DeniedReauth | DeniedDegraded | HealthFailed | Executable

  function AssertExecutable(s: Store, e: Text): Verdict {
    ViewVerdict(At(s, e))
  }

  function ViewVerdict(v: View): Verdict {
    if v.row.None? then NotFound
    else
      var b := v.row.value;
      if b.status == Revoked then DeniedRevoked
      else if b.status == Unlinked || !Truthy(b.agentId) then Unbound
      else if b.status == NeedsReauth then DeniedReauth
      else if b.status == Degraded then DeniedDegraded
      else if b.status != Linked then HealthFailed
      else Executable
  }

  function GetWakeSecret(s: Store, e: Text): Text {
    var id := Trim(e);
    if id in s.secrets then Trim(s.secrets[id]) else []
  }

  // ----- the invariant -----

  /** What holds of the row and the secret stored under `e`. */
  predicate ViewOk(v: View, e: Text) {
    && (v.row.Some? ==>
          var b := v.row.value;
          && b.employeeId == e
          && b.agentId != Some([])
          && (b.status == Linked ==> b.agentId.Some?)
          && (b.status == Unlinked ==> b.agentId == None)
          && b.status != Degraded
          && b.hasWake == v.secret.Some?
          && b.wakeUrl != Some([]))
    && (v.secret.Some? ==>
          && v.row.Some? && v.row.value.wakeUrl.Some?
          && v.secret.value != [] && IsTrimmed(v.secret.value))
  }

  ghost predicate Valid(s: Store) {
    && (forall e :: ViewOk(At(s, e), e))
    && (forall e :: e in s.order <==> e in s.rows)
    && (forall i, j | 0 <= i < j < |s.order| :: s.order[i] != s.order[j])
  }

  /** A call changes what is held for its own employee, as `StepView` says, and for nobody else. */
  lemma StepAt(s: Store, call: Call, e: Text)
    ensures At(Step(s, call).0, e)
         == if call.op.employee == e then StepView(At(s, e), call).0 else At(s, e)
    ensures Step(s, call).1 == StepView(At(s, call.op.employee), call).1
  {
    var v := StepView(At(s, call.op.employee), call).0;
    StepKeepsRow(At(s, call.op.employee), call);
    assert e != call.op.employee ==> At(Install(s, call.op.employee, v), e) == At(s, e);
  }

  /** No operation removes a row. */
  lemma StepKeepsRow(v: View, call: Call)
    ensures v.row.Some? ==> StepView(v, call).0.row.Some?
  {
  }

  lemma StepViewKeepsOk(v: View, call: Call)
    requires ViewOk(v, call.op.employee)
    ensures ViewOk(StepView(v, call).0, call.op.employee)
  {
    match call.op {
      case LinkAgent(_, _, agent, _) =>
      case UpdateWake(_, _, _, secret) =>
        if secret.Given? { TrimFixed(secret.value.GetOr([])); }
      case _ =>
    }
  }

  lemma InstallKeepsOrder(s: Store, e: Text, v: View)
    requires forall x :: x in s.order <==> x in s.rows
    requires forall i, j | 0 <= i < j < |s.order| :: s.order[i] != s.order[j]
    ensures var t := Install(s, e, v);
      && (forall x :: x in t.order <==> x in t.rows)
      && (forall i, j | 0 <= i < j < |t.order| :: t.order[i] != t.order[j])
  {
  }

  /** Every operation keeps the invariant. */
  lemma StepKeepsValid(s: Store, call: Call)
    requires Valid(s)
    ensures Valid(Step(s, call).0)
  {
    var t := Step(s, call).0;
    forall e
      ensures ViewOk(At(t, e), e)
    {
      StepAt(s, call, e);
      assert ViewOk(At(s, e), e);
      if e == call.op.employee {
        StepViewKeepsOk(At(s, e), call);
      }
    }
    InstallKeepsOrder(s, call.op.employee, StepView(At(s, call.op.employee), call).0);
  }

  /** Every reachable store is valid. */
  lemma {:induction false} RunKeepsValid(s: Store, calls: seq<Call>)
    requires Valid(s)
    ensures Valid(Run(s, calls))
  {
    if calls != [] {
      RunKeepsValid(s, calls[..|calls| - 1]);
      StepKeepsValid(Run(s, calls[..|calls| - 1]), calls[|calls| - 1]);
    }
  }

  lemma {:induction false} RunConcat(s: Store, a: seq<Call>, b: seq<Call>)
    ensures Run(s, a + b) == Run(Run(s, a), b)
  {
    if b == [] {
      assert a + b == a;
    } else {
      RunConcat(s, a, b[..|b| - 1]);
      assert (a + b)[..|a + b| - 1] == a + b[..|b| - 1];
    }
  }
}
