/**
  What a binding holds, field by field, read off the history of calls: each field
  is what the last call that writes it wrote, and what it was at the start when no
  call did.
 */
module BindingFields {
  import opened Options
  import opened CodeUnits
  import opened Bindings
  import opened BindingHistory

  // ----- the last write stays -----

  /** The value after the first `k` calls of what `read` reads. */
  function ReadAfter<T>(s0: Store, e: Text, calls: seq<Call>, read: View -> T, k: nat): T
    requires k <= |calls|
  {
    read(At(Run(s0, calls[..k]), e))
  }

  /** Each of the first `n` calls leaves what is read as it was, or makes it what `writes` says. */
  ghost predicate Tracks<T>(s0: Store, e: Text, calls: seq<Call>, n: nat, read: View -> T, writes: nat -> Option<T>)
    requires n <= |calls|
  {
    forall k: nat | k < n ::
      ReadAfter(s0, e, calls, read, k + 1) == writes(k).GetOr(ReadAfter(s0, e, calls, read, k))
  }

  /** Of the first `n` writes the `k`-th is the last. */
  ghost predicate IsLast<T>(writes: nat -> Option<T>, k: nat, n: nat) {
    k < n && writes(k).Some? && forall j: nat | k < j < n :: writes(j).None?
  }

  /** What the last of the first `n` writes wrote, and `start` when there was none. */
  ghost predicate IsLastWritten<T>(writes: nat -> Option<T>, n: nat, start: T, now: T) {
    && (forall k: nat | IsLast(writes, k, n) :: now == writes(k).value)
    && ((forall k: nat | k < n :: writes(k).None?) ==> now == start)
  }

  lemma {:induction false} LastWriteStays<T>(s0: Store, e: Text, calls: seq<Call>, n: nat,
                                             read: View -> T, writes: nat -> Option<T>)
    requires n <= |calls| && Tracks(s0, e, calls, n, read, writes)
    ensures IsLastWritten(writes, n, ReadAfter(s0, e, calls, read, 0), ReadAfter(s0, e, calls, read, n))
  {
    if n > 0 {
      LastWriteStays(s0, e, calls, n - 1, read, writes);
      forall k: nat | IsLast(writes, k, n)
        ensures ReadAfter(s0, e, calls, read, n) == writes(k).value
      {
        assert k < n - 1 ==> IsLast(writes, k, n - 1);
      }
    }
  }

  // ----- what each call finds -----

  /** The `k`-th call is one for `e`, and no revoke took effect before it. */
  ghost predicate Live(s0: Store, e: Text, calls: seq<Call>, k: nat)
    requires k < |calls|
  {
    calls[k].op.employee == e && !WasRevoked(s0, e, calls[..k])
  }

  /** Before the `k`-th call, a row for `e` is there. */
  ghost predicate Present(s0: Store, e: Text, calls: seq<Call>, k: nat)
    requires k < |calls|
  {
    Exists(s0, e, calls[..k])
  }

  /** One call further, and what the history says of the row it finds. */
  lemma CallAt(s0: Store, e: Text, calls: seq<Call>, k: nat) returns (v: View)
    requires Valid(s0) && k < |calls|
    ensures v == At(Run(s0, calls[..k]), e) && ViewOk(v, e)
    ensures At(Run(s0, calls[..k + 1]), e) == if calls[k].op.employee == e then StepView(v, calls[k]).0 else v
    ensures v.row.Some? <==> Present(s0, e, calls, k)
    ensures v.row.Some? && v.row.value.status == Revoked <==> WasRevoked(s0, e, calls[..k])
  {
    v := At(Run(s0, calls[..k]), e);
    assert calls[..k + 1][..k] == calls[..k];
    StepAt(Run(s0, calls[..k]), calls[k], e);
    RunAgrees(s0, e, calls[..k]);
    RunKeepsValid(s0, calls[..k]);
  }

  // ----- the wake webhook -----

  function UrlIn(v: View): Option<Text> {
    if v.row.Some? then v.row.value.wakeUrl else None
  }

  function SecretIn(v: View): Option<Text> {
    v.secret
  }

  /** A given text without white space at its ends; null and blank texts are nothing. */
  function Cleaned(given: Option<Text>): Option<Text> {
    if given.Some? && Trim(given.value) != [] then Some(Trim(given.value)) else None
  }

  /** An edit of the wake webhook that is accepted. */
  ghost predicate EditsWake(s0: Store, e: Text, calls: seq<Call>, k: nat) {
    k < |calls| && calls[k].op.UpdateWake? && Live(s0, e, calls, k)
  }

  /** An edit writes the URL when it gives one. */
  ghost function UrlWrite(s0: Store, e: Text, calls: seq<Call>, k: nat): Option<Option<Text>> {
    if EditsWake(s0, e, calls, k) && calls[k].op.url.Given? then Some(Cleaned(calls[k].op.url.value)) else None
  }

  lemma UrlAt(s0: Store, e: Text, calls: seq<Call>, k: nat)
    requires Valid(s0) && k < |calls|
    ensures ReadAfter(s0, e, calls, UrlIn, k + 1)
         == UrlWrite(s0, e, calls, k).GetOr(ReadAfter(s0, e, calls, UrlIn, k))
  {
    var v := CallAt(s0, e, calls, k);
  }

  /** The URL after `n` calls is what the last accepted edit that gives one gave, trimmed; none if that was blank. */
  lemma WakeUrlIsLastGiven(s0: Store, e: Text, calls: seq<Call>, n: nat)
    requires Valid(s0) && n <= |calls|
    ensures IsLastWritten((k: nat) => UrlWrite(s0, e, calls, k), n,
                          UrlIn(At(s0, e)), UrlIn(At(Run(s0, calls[..n]), e)))
  {
    forall k: nat | k < n
      ensures ReadAfter(s0, e, calls, UrlIn, k + 1)
           == UrlWrite(s0, e, calls, k).GetOr(ReadAfter(s0, e, calls, UrlIn, k))
    {
      UrlAt(s0, e, calls, k);
    }
    LastWriteStays(s0, e, calls, n, UrlIn, (k: nat) => UrlWrite(s0, e, calls, k));
    assert calls[..0] == [];
  }

  /** The URL that the `k`-th call leaves. */
  ghost function UrlLeft(s0: Store, e: Text, calls: seq<Call>, k: nat): Option<Text>
    requires k < |calls|
  {
    UrlIn(At(Run(s0, calls[..k + 1]), e))
  }

  /** An edit writes the secret when it gives one or leaves no URL; without a URL there is no secret. */
  ghost function SecretWrite(s0: Store, e: Text, calls: seq<Call>, k: nat): Option<Option<Text>> {
    if !EditsWake(s0, e, calls, k) then None
    else if UrlLeft(s0, e, calls, k).None? then Some(None)
    else if calls[k].op.secret.Given? then Some(Cleaned(calls[k].op.secret.value))
    else None
  }

  lemma SecretAt(s0: Store, e: Text, calls: seq<Call>, k: nat)
    requires Valid(s0) && k < |calls|
    ensures ReadAfter(s0, e, calls, SecretIn, k + 1)
         == SecretWrite(s0, e, calls, k).GetOr(ReadAfter(s0, e, calls, SecretIn, k))
  {
    var v := CallAt(s0, e, calls, k);
  }

  /** The secret after `n` calls is the last one given, trimmed, unless that was blank or an edit since left no URL. */
  lemma WakeSecretIsLastGiven(s0: Store, e: Text, calls: seq<Call>, n: nat)
    requires Valid(s0) && n <= |calls|
    ensures IsLastWritten((k: nat) => SecretWrite(s0, e, calls, k), n,
                          SecretIn(At(s0, e)), SecretIn(At(Run(s0, calls[..n]), e)))
  {
    forall k: nat | k < n
      ensures ReadAfter(s0, e, calls, SecretIn, k + 1)
           == SecretWrite(s0, e, calls, k).GetOr(ReadAfter(s0, e, calls, SecretIn, k))
    {
      SecretAt(s0, e, calls, k);
    }
    LastWriteStays(s0, e, calls, n, SecretIn, (k: nat) => SecretWrite(s0, e, calls, k));
    assert calls[..0] == [];
  }

  // ----- agent and workspace -----

  function AgentIn(v: View): Option<Text> {
    if v.row.Some? then v.row.value.agentId else None
  }

  function WorkspaceIn(v: View): Option<Text> {
    if v.row.Some? then v.row.value.workspaceId else None
  }

  /** A link that is accepted. */
  ghost predicate Links(s0: Store, e: Text, calls: seq<Call>, k: nat) {
    k < |calls| && IsLink(calls[k].op, e) && Live(s0, e, calls, k)
  }

  ghost function AgentWrite(s0: Store, e: Text, calls: seq<Call>, k: nat): Option<Option<Text>> {
    if Links(s0, e, calls, k) then Some(Some(Trim(calls[k].op.agent))) else None
  }

  /** A workspace is written as it is given; null and the empty text are nothing. */
  ghost function WorkspaceWrite(s0: Store, e: Text, calls: seq<Call>, k: nat): Option<Option<Text>> {
    if Links(s0, e, calls, k) && calls[k].op.workspace.Given? then
      var w := calls[k].op.workspace.value;
      Some(if w == Some([]) then None else w)
    else None
  }

  lemma AgentAt(s0: Store, e: Text, calls: seq<Call>, k: nat)
    requires Valid(s0) && k < |calls|
    ensures ReadAfter(s0, e, calls, AgentIn, k + 1)
         == AgentWrite(s0, e, calls, k).GetOr(ReadAfter(s0, e, calls, AgentIn, k))
  {
    var v := CallAt(s0, e, calls, k);
  }

  /** The agent is the one the last accepted link named, trimmed. */
  lemma AgentIsLastLinked(s0: Store, e: Text, calls: seq<Call>, n: nat)
    requires Valid(s0) && n <= |calls|
    ensures IsLastWritten((k: nat) => AgentWrite(s0, e, calls, k), n,
                          AgentIn(At(s0, e)), AgentIn(At(Run(s0, calls[..n]), e)))
  {
    forall k: nat | k < n
      ensures ReadAfter(s0, e, calls, AgentIn, k + 1)
           == AgentWrite(s0, e, calls, k).GetOr(ReadAfter(s0, e, calls, AgentIn, k))
    {
      AgentAt(s0, e, calls, k);
    }
    LastWriteStays(s0, e, calls, n, AgentIn, (k: nat) => AgentWrite(s0, e, calls, k));
    assert calls[..0] == [];
  }

  lemma WorkspaceAt(s0: Store, e: Text, calls: seq<Call>, k: nat)
    requires Valid(s0) && k < |calls|
    ensures ReadAfter(s0, e, calls, WorkspaceIn, k + 1)
         == WorkspaceWrite(s0, e, calls, k).GetOr(ReadAfter(s0, e, calls, WorkspaceIn, k))
  {
    var v := CallAt(s0, e, calls, k);
  }

  /** The workspace is the one the last accepted link that gives one gave. */
  lemma WorkspaceIsLastGiven(s0: Store, e: Text, calls: seq<Call>, n: nat)
    requires Valid(s0) && n <= |calls|
    ensures IsLastWritten((k: nat) => WorkspaceWrite(s0, e, calls, k), n,
                          WorkspaceIn(At(s0, e)), WorkspaceIn(At(Run(s0, calls[..n]), e)))
  {
    forall k: nat | k < n
      ensures ReadAfter(s0, e, calls, WorkspaceIn, k + 1)
           == WorkspaceWrite(s0, e, calls, k).GetOr(ReadAfter(s0, e, calls, WorkspaceIn, k))
    {
      WorkspaceAt(s0, e, calls, k);
    }
    LastWriteStays(s0, e, calls, n, WorkspaceIn, (k: nat) => WorkspaceWrite(s0, e, calls, k));
    assert calls[..0] == [];
  }

  // ----- health -----

  function SuccessIn(v: View): Option<int> {
    if v.row.Some? then v.row.value.lastSuccessAt else None
  }

  function ErrorIn(v: View): Option<Text> {
    if v.row.Some? then v.row.value.lastError else None
  }

  ghost function SuccessWrite(s0: Store, e: Text, calls: seq<Call>, k: nat): Option<Option<int>> {
    if k < |calls| && calls[k].op.HealthSuccess? && Live(s0, e, calls, k) && Present(s0, e, calls, k)
    then Some(Some(calls[k].now)) else None
  }

  function OrElse(error: Text, note: string): Option<Text> {
    Some(if error == [] then Literal(note) else error)
  }

  /** What a call writes as the last error of a row that is there: null unless the call is bad news. */
  ghost function Noted(s0: Store, e: Text, calls: seq<Call>, k: nat): Option<Option<Text>>
    requires k < |calls|
  {
    var revoked := WasRevoked(s0, e, calls[..k]);
    match calls[k].op
    case HealthFailure(_, error) => Some(OrElse(error, if revoked then "revoked" else "health_failed"))
    case Revoke(_) => Some(Some(Literal("revoked")))
    case HealthSuccess(_) => Some(if revoked then Some(Literal("revoked")) else None)
    case _ =>
      if !revoked && (IsLink(calls[k].op, e) || calls[k].op.Rotate? || calls[k].op.BumpGeneration?
                      || WritesAt(s0, e, calls, k))
      then Some(None) else None
  }

  ghost function ErrorWrite(s0: Store, e: Text, calls: seq<Call>, k: nat): Option<Option<Text>> {
    if k < |calls| && calls[k].op.employee == e && (Present(s0, e, calls, k) || Creates(calls[k].op, e))
    then Noted(s0, e, calls, k) else None
  }

  lemma SuccessAt(s0: Store, e: Text, calls: seq<Call>, k: nat)
    requires Valid(s0) && k < |calls|
    ensures ReadAfter(s0, e, calls, SuccessIn, k + 1)
         == SuccessWrite(s0, e, calls, k).GetOr(ReadAfter(s0, e, calls, SuccessIn, k))
  {
    var v := CallAt(s0, e, calls, k);
  }

  /** The time of the last success is that of the last healthy report that found a row not revoked. */
  lemma SuccessIsLastReported(s0: Store, e: Text, calls: seq<Call>, n: nat)
    requires Valid(s0) && n <= |calls|
    ensures IsLastWritten((k: nat) => SuccessWrite(s0, e, calls, k), n,
                          SuccessIn(At(s0, e)), SuccessIn(At(Run(s0, calls[..n]), e)))
  {
    forall k: nat | k < n
      ensures ReadAfter(s0, e, calls, SuccessIn, k + 1)
           == SuccessWrite(s0, e, calls, k).GetOr(ReadAfter(s0, e, calls, SuccessIn, k))
    {
      SuccessAt(s0, e, calls, k);
    }
    LastWriteStays(s0, e, calls, n, SuccessIn, (k: nat) => SuccessWrite(s0, e, calls, k));
    assert calls[..0] == [];
  }

  lemma ErrorAt(s0: Store, e: Text, calls: seq<Call>, k: nat)
    requires Valid(s0) && k < |calls|
    ensures ReadAfter(s0, e, calls, ErrorIn, k + 1)
         == ErrorWrite(s0, e, calls, k).GetOr(ReadAfter(s0, e, calls, ErrorIn, k))
  {
    var v := CallAt(s0, e, calls, k);
  }

  /** The last error is the last failure's or revocation's, and null once something put it right. */
  lemma ErrorIsLastNoted(s0: Store, e: Text, calls: seq<Call>, n: nat)
    requires Valid(s0) && n <= |calls|
    ensures IsLastWritten((k: nat) => ErrorWrite(s0, e, calls, k), n,
                          ErrorIn(At(s0, e)), ErrorIn(At(Run(s0, calls[..n]), e)))
  {
    forall k: nat | k < n
      ensures ReadAfter(s0, e, calls, ErrorIn, k + 1)
           == ErrorWrite(s0, e, calls, k).GetOr(ReadAfter(s0, e, calls, ErrorIn, k))
    {
      ErrorAt(s0, e, calls, k);
    }
    LastWriteStays(s0, e, calls, n, ErrorIn, (k: nat) => ErrorWrite(s0, e, calls, k));
    assert calls[..0] == [];
  }

  // ----- time stamps -----

  function StampIn(v: View): Option<int> {
    if v.row.Some? then Some(v.row.value.updatedAt) else None
  }

  /** The calls that change the row or report on it: all but those that throw, fail to swap or find what they ensure. */
  ghost predicate Stamps(s0: Store, e: Text, calls: seq<Call>, k: nat) {
    && k < |calls| && calls[k].op.employee == e
    && if !Present(s0, e, calls, k) then Creates(calls[k].op, e)
       else
         match calls[k].op
         case HealthSuccess(_) => true
         case HealthFailure(_, _) => true
         case Revoke(_) => true
         case EnsureRow(_, _) => false
         case LinkAgent(_, _, _, _) => Links(s0, e, calls, k)
         case MoveFingerprint(_, _, _, _) => WritesAt(s0, e, calls, k)
         case _ => Live(s0, e, calls, k)
  }

  ghost function StampWrite(s0: Store, e: Text, calls: seq<Call>, k: nat): Option<Option<int>> {
    if Stamps(s0, e, calls, k) then Some(Some(calls[k].now)) else None
  }

  lemma StampAt(s0: Store, e: Text, calls: seq<Call>, k: nat)
    requires Valid(s0) && k < |calls|
    ensures ReadAfter(s0, e, calls, StampIn, k + 1)
         == StampWrite(s0, e, calls, k).GetOr(ReadAfter(s0, e, calls, StampIn, k))
  {
    var v := CallAt(s0, e, calls, k);
  }

  /** A row carries the time of the last call that created it, changed it or reported on it. */
  lemma StampIsLastChange(s0: Store, e: Text, calls: seq<Call>, n: nat)
    requires Valid(s0) && n <= |calls|
    ensures IsLastWritten((k: nat) => StampWrite(s0, e, calls, k), n,
                          StampIn(At(s0, e)), StampIn(At(Run(s0, calls[..n]), e)))
  {
    forall k: nat | k < n
      ensures ReadAfter(s0, e, calls, StampIn, k + 1)
           == StampWrite(s0, e, calls, k).GetOr(ReadAfter(s0, e, calls, StampIn, k))
    {
      StampAt(s0, e, calls, k);
    }
    LastWriteStays(s0, e, calls, n, StampIn, (k: nat) => StampWrite(s0, e, calls, k));
    assert calls[..0] == [];
  }

  // ----- what calls answer -----

  /**
    What the `k`-th call answers: refused for a revoked row, refused for a blank
    agent, whether a fingerprint moved, nothing for a row that is not there, and
    otherwise the row as it is left.
   */
  lemma OutcomeReadsHistory(s0: Store, calls: seq<Call>, k: nat)
    requires Valid(s0) && k < |calls|
    ensures var (c, e) := (calls[k], calls[k].op.employee);
      var (outcome, after) := (Outcomes(s0, calls)[k], At(Run(s0, calls[..k + 1]), e));
      var revoked := WasRevoked(s0, e, calls[..k]);
      && (outcome == Threw(BindingRevoked)
          <==> revoked && (c.op.LinkAgent? || c.op.Rotate? || c.op.BumpGeneration? || c.op.UpdateWake?))
      && (outcome == Threw(AgentIdRequired) <==> !revoked && c.op.LinkAgent? && Trim(c.op.agent) == [])
      && (outcome == Swapped(true) <==> c.op.MoveFingerprint? && WritesAt(s0, e, calls, k))
      && (outcome == Swapped(false) <==> c.op.MoveFingerprint? && !WritesAt(s0, e, calls, k))
      && (outcome == Undefined
          <==> (c.op.HealthSuccess? || c.op.HealthFailure? || c.op.Revoke?) && !Present(s0, e, calls, k))
      && (outcome.Returned? ==> after.row == Some(outcome.row))
  {
    OutcomeAt(s0, calls, k);
    var v := CallAt(s0, calls[k].op.employee, calls, k);
    WritesAreReported(s0, calls[k].op.employee, calls, k);
  }
}
