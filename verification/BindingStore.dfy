/**
  The in-memory binding store as the program keeps it: two maps updated in
  place. Each method is proved to do exactly what `Bindings.Step` says.
 */
module BindingStore {
  import opened Options
  import opened CodeUnits
  import opened Bindings

  function ResultOutcome(r: Result<Binding, BindingError>): Outcome {
    match r
    case Ok(b) => Returned(b)
    case Err(e) => Threw(e)
  }

  function OptionOutcome(r: Option<Binding>): Outcome {
    match r
    case Some(b) => Returned(b)
    case None => Undefined
  }

  /** A row of the demo set: what seeding writes over an untouched row. */
  datatype DemoSeed = DemoSeed(
    employee: Text, agent: Text, generation: nat, fingerprint: Text,
    status: Status, ago: int, error: Option<Text>)

  /** The four seeded employees; `hash` stands for SHA-256 of a string. */
  function SalesSeed(hash: Text -> Text): DemoSeed {
    DemoSeed(Literal("emp_sales"), Literal("gba_demo_sales"), 1, hash(Literal("demo-seed-sales-v1")),
             Linked, 3600000, None)
  }

  function CommSeed(hash: Text -> Text): DemoSeed {
    DemoSeed(Literal("emp_comm"), Literal("gba_demo_comm"), 1, hash(Literal("demo-seed-comm-v1")),
             Linked, 1800000, None)
  }

  function SnsSeed(hash: Text -> Text): DemoSeed {
    DemoSeed(Literal("emp_sns"), Literal("gba_demo_sns"), 1, hash(Literal("demo-seed-sns-v1")),
             Linked, 900000, None)
  }

  function OpsSeed(hash: Text -> Text): DemoSeed {
    DemoSeed(Literal("emp_ops"), Literal("gba_demo_ops"), 2, hash(Literal("demo-seed-ops-v2")),
             NeedsReauth, 172800000, Some(Literal("credential_rejected")))
  }

  function DemoSeeds(hash: Text -> Text): seq<DemoSeed> {
    [SalesSeed(hash), CommSeed(hash), SnsSeed(hash), OpsSeed(hash)]
  }

  function SeededRow(b: Binding, d: DemoSeed, now: int): Binding {
    b.(agentId := Some(d.agent), workspaceId := Some(Literal("gbw_demo")), generation := d.generation,
       fingerprint := Some(d.fingerprint), status := d.status, lastSuccessAt := Some(now - d.ago),
       lastError := d.error, updatedAt := now)
  }

  /** Seeding leaves a row alone once it has an agent or has been touched by a status change. */
  function SeedView(v: View, d: DemoSeed, now: int): View {
    if v.row.Some? && v.row.value.status == Unlinked && !Truthy(v.row.value.agentId)
    then v.(row := Some(SeededRow(v.row.value, d, now)))
    else v
  }

  function SeedOne(s: Store, d: DemoSeed, now: int): Store {
    Install(s, d.employee, SeedView(At(s, d.employee), d, now))
  }

  function SeedEach(s: Store, seeds: seq<DemoSeed>, now: int): Store {
    if seeds == [] then s
    else SeedOne(SeedEach(s, seeds[..|seeds| - 1], now), seeds[|seeds| - 1], now)
  }

  function EnsureCalls(employees: seq<(Text, Text)>, now: int): seq<Call> {
    seq(|employees|, i requires 0 <= i < |employees| => Call(now, EnsureRow(employees[i].0, employees[i].1)))
  }

  /** `linkSales` is the option of the same name: only an explicit false skips the demo links. */
  function Seeded(s: Store, employees: seq<(Text, Text)>, linkSales: Option<bool>, hash: Text -> Text, now: int)
    : Store
  {
    var ensured := Run(s, EnsureCalls(employees, now));
    if linkSales == Some(false) then ensured else SeedEach(ensured, DemoSeeds(hash), now)
  }

  /** A row an org's operators have to relink; no org id means every org. */
  predicate CountsFor(b: Binding, org: Option<Text>) {
    b.status == NeedsReauth && (Truthy(org) ==> b.orgId == org.value)
  }

  // ----- facts about installing views -----

  lemma InstallSame(s: Store, e: Text)
    ensures Install(s, e, At(s, e)) == s
  {
    assert e in s.rows ==> s.rows[e := s.rows[e]] == s.rows;
    assert e in s.secrets ==> s.secrets[e := s.secrets[e]] == s.secrets;
    assert e !in s.secrets ==> s.secrets - {e} == s.secrets;
  }

  lemma InstallTwice(s: Store, e: Text, v: View, w: View)
    requires v.row.Some? && w.row.Some?
    ensures Install(Install(s, e, v), e, w) == Install(s, e, w)
  {
    assert s.rows[e := v.row.value][e := w.row.value] == s.rows[e := w.row.value];
    var mid := Install(s, e, v).secrets;
    assert mid - {e} == s.secrets - {e};
    assert w.secret.Some? ==> mid[e := w.secret.value] == s.secrets[e := w.secret.value];
  }

  lemma AtInstall(s: Store, e: Text, v: View, x: Text)
    requires v.row.Some? || e !in s.rows
    ensures At(Install(s, e, v), x) == if x == e then v else At(s, x)
  {
  }

  /** Finishing a call on a row that was ensured first is the same as making the call. */
  lemma StepAfterEnsure(s: Store, call: Call)
    requires Creates(call.op, call.op.employee)
    ensures Step(Step(s, Call(call.now, EnsureRow(call.op.employee, call.op.org))).0, call) == Step(s, call)
  {
    var e := call.op.employee;
    var ensure := Call(call.now, EnsureRow(e, call.op.org));
    var v := StepView(At(s, e), ensure).0;
    StepAt(s, ensure, e);
    StepKeepsRow(v, call);
    InstallTwice(s, e, v, StepView(v, call).0);
  }

  function EnsureCall(call: Call): Call
    requires Creates(call.op, call.op.employee)
  {
    Call(call.now, EnsureRow(call.op.employee, call.op.org))
  }

  /** A call on a row that was ensured and is not revoked does what `StepLive` says. */
  lemma LiveAfterEnsure(s: Store, call: Call, row: Binding)
    requires Creates(call.op, call.op.employee)
    requires Step(s, EnsureCall(call)).1 == Returned(row) && row.status != Revoked
    ensures var s1, e := Step(s, EnsureCall(call)).0, call.op.employee;
      var (v, outcome) := StepLive(At(s1, e), row, call.now, call.op);
      Step(s, call) == (Install(s1, e, v), outcome)
  {
    StepAfterEnsure(s, call);
    StepAt(s, EnsureCall(call), call.op.employee);
  }

  /** An administrative call on a revoked row throws; all it may have done is to ensure the row. */
  lemma RevokedAfterEnsure(s: Store, call: Call, row: Binding)
    requires call.op.LinkAgent? || call.op.Rotate? || call.op.BumpGeneration? || call.op.UpdateWake?
    requires Step(s, EnsureCall(call)).1 == Returned(row) && row.status == Revoked
    ensures Step(s, call) == (Step(s, EnsureCall(call)).0, Threw(BindingRevoked))
  {
    StepAfterEnsure(s, call);
    StepAt(s, EnsureCall(call), call.op.employee);
    InstallSame(Step(s, EnsureCall(call)).0, call.op.employee);
  }

  // ----- the store -----

  class BindingStore {
    var rows: map<Text, Binding>
    /** The keys of `rows` in insertion order, as a `Map` iterates them. */
    var order: seq<Text>
    var secrets: map<Text, Text>

    ghost function State(): Store
      reads this
    {
      Store(rows, order, secrets)
    }

    constructor ()
      ensures State() == EMPTY_STORE && Valid(State())
    {
      rows, order, secrets := map[], [], map[];
    }

    /** Writes `b` with a new time stamp under its own id. */
    method Touch(b: Binding, now: int) returns (next: Binding)
      requires At(State(), b.employeeId).row.Some?
      modifies this
      ensures next == b.(updatedAt := now)
      ensures State() == Install(old(State()), b.employeeId, View(Some(next), At(old(State()), b.employeeId).secret))
    {
      next := b.(updatedAt := now);
      rows := rows[next.employeeId := next];
      InstallSame(old(State()), b.employeeId);
    }

    method EnsureBindingRow(employee: Text, org: Text, now: int) returns (row: Binding)
      requires Valid(State())
      modifies this
      ensures State() == Step(old(State()), Call(now, EnsureRow(employee, org))).0
      ensures Returned(row) == Step(old(State()), Call(now, EnsureRow(employee, org))).1
      ensures Valid(State()) && At(State(), employee).row == Some(row) && row.employeeId == employee
    {
      StepKeepsValid(State(), Call(now, EnsureRow(employee, org)));
      StepAt(State(), Call(now, EnsureRow(employee, org)), employee);
      InstallSame(State(), employee);
      assert ViewOk(At(State(), employee), employee);
      if employee in rows {
        row := rows[employee];
      } else {
        row := UnlinkedBinding(employee, org, now);
        rows := rows[employee := row];
        order := order + [employee];
      }
    }

    method LinkAgent(employee: Text, org: Text, agent: Text, workspace: Field, now: int)
      returns (r: Result<Binding, BindingError>)
      requires Valid(State())
      modifies this
      ensures (State(), ResultOutcome(r))
           == Step(old(State()), Call(now, Op.LinkAgent(employee, org, agent, workspace)))
      ensures Valid(State())
    {
      ghost var before, call := State(), Call(now, Op.LinkAgent(employee, org, agent, workspace));
      StepKeepsValid(before, call);
      var row := EnsureBindingRow(employee, org, now);
      InstallSame(State(), employee);
      if row.status == Revoked {
        RevokedAfterEnsure(before, call, row);
        return Err(BindingRevoked);
      }
      LiveAfterEnsure(before, call, row);
      var agentId := Trim(agent);
      if agentId == [] {
        return Err(AgentIdRequired);
      }
      var next := Touch(row.(agentId := Some(agentId),
                             workspaceId := if workspace.Absent? then row.workspaceId
                                            else NonEmpty(workspace.value.GetOr([])),
                             status := Linked,
                             lastError := None), now);
      return Ok(next);
    }

    method RotateCredential(employee: Text, org: Text, fingerprint: Text, now: int)
      returns (r: Result<Binding, BindingError>, generation: nat)
      requires Valid(State())
      modifies this
      ensures (State(), ResultOutcome(r)) == Step(old(State()), Call(now, Rotate(employee, org, fingerprint)))
      ensures r.Ok? ==> generation == r.value.generation
      ensures Valid(State())
    {
      ghost var before, call := State(), Call(now, Rotate(employee, org, fingerprint));
      StepKeepsValid(before, call);
      var row := EnsureBindingRow(employee, org, now);
      if row.status == Revoked {
        RevokedAfterEnsure(before, call, row);
        return Err(BindingRevoked), 0;
      }
      LiveAfterEnsure(before, call, row);
      generation := row.generation + 1;
      var nextStatus := if Truthy(row.agentId) then Linked else Unlinked;
      var next := Touch(row.(generation := generation, fingerprint := Some(fingerprint),
                             status := nextStatus, lastError := None), now);
      r := Ok(next);
    }

    method BumpCredentialGenerationKeepFingerprint(employee: Text, org: Text, now: int)
      returns (r: Result<Binding, BindingError>, generation: nat)
      requires Valid(State())
      modifies this
      ensures (State(), ResultOutcome(r)) == Step(old(State()), Call(now, BumpGeneration(employee, org)))
      ensures r.Ok? ==> generation == r.value.generation
      ensures Valid(State())
    {
      ghost var before, call := State(), Call(now, BumpGeneration(employee, org));
      StepKeepsValid(before, call);
      var row := EnsureBindingRow(employee, org, now);
      if row.status == Revoked {
        RevokedAfterEnsure(before, call, row);
        return Err(BindingRevoked), 0;
      }
      LiveAfterEnsure(before, call, row);
      generation := row.generation + 1;
      var next := Touch(row.(generation := generation, lastError := None), now);
      r := Ok(next);
    }

    method MoveBindingFingerprintIfCurrent(employee: Text, org: Text, expected: Text, next: Text, now: int)
      returns (moved: bool)
      requires Valid(State())
      modifies this
      ensures (State(), Swapped(moved)) == Step(old(State()), Call(now, MoveFingerprint(employee, org, expected, next)))
      ensures Valid(State())
    {
      ghost var call := Call(now, MoveFingerprint(employee, org, expected, next));
      StepKeepsValid(State(), call);
      if employee == [] || org == [] || expected == [] || next == [] {
        InstallSame(State(), employee);
        return false;
      }
      StepAfterEnsure(State(), call);
      var row := EnsureBindingRow(employee, org, now);
      InstallSame(State(), employee);
      if row.status == Revoked {
        return false;
      }
      if row.fingerprint != Some(expected) {
        return false;
      }
      var _ := Touch(row.(fingerprint := Some(next), lastError := None), now);
      return true;
    }

    method RecordHealthSuccess(employee: Text, now: int) returns (r: Option<Binding>)
      requires Valid(State())
      modifies this
      ensures (State(), OptionOutcome(r)) == Step(old(State()), Call(now, HealthSuccess(employee)))
      ensures Valid(State())
    {
      StepKeepsValid(State(), Call(now, HealthSuccess(employee)));
      InstallSame(State(), employee);
      assert ViewOk(At(State(), employee), employee);
      if employee !in rows {
        return None;
      }
      var row := rows[employee];
      var next;
      if row.status == Revoked {
        next := Touch(row.(lastError := Some(RevokedNote())), now);
      } else {
        next := Touch(row.(status := if Truthy(row.agentId) then Linked else Unlinked,
                           lastSuccessAt := Some(now), lastError := None), now);
      }
      return Some(next);
    }

    method RecordHealthFailure(employee: Text, error: Text, now: int) returns (r: Option<Binding>)
      requires Valid(State())
      modifies this
      ensures (State(), OptionOutcome(r)) == Step(old(State()), Call(now, HealthFailure(employee, error)))
      ensures Valid(State())
    {
      StepKeepsValid(State(), Call(now, HealthFailure(employee, error)));
      InstallSame(State(), employee);
      assert ViewOk(At(State(), employee), employee);
      if employee !in rows {
        return None;
      }
      var row := rows[employee];
      var next;
      if row.status == Revoked {
        next := Touch(row.(lastError := Some(if error == [] then RevokedNote() else error)), now);
      } else {
        next := Touch(row.(status := NeedsReauth,
                           lastError := Some(if error == [] then HealthFailedNote() else error)), now);
      }
      return Some(next);
    }

    method RevokeBinding(employee: Text, now: int) returns (r: Option<Binding>)
      requires Valid(State())
      modifies this
      ensures (State(), OptionOutcome(r)) == Step(old(State()), Call(now, Revoke(employee)))
      ensures Valid(State())
    {
      StepKeepsValid(State(), Call(now, Revoke(employee)));
      InstallSame(State(), employee);
      assert ViewOk(At(State(), employee), employee);
      if employee !in rows {
        return None;
      }
      var row := rows[employee];
      var next := Touch(row.(status := Revoked, lastError := Some(RevokedNote())), now);
      return Some(next);
    }

    method UpdateWakeWebhook(employee: Text, org: Text, url: Field, secret: Field, now: int)
      returns (r: Result<Binding, BindingError>)
      requires Valid(State())
      modifies this
      ensures (State(), ResultOutcome(r)) == Step(old(State()), Call(now, UpdateWake(employee, org, url, secret)))
      ensures Valid(State())
    {
      ghost var before, call := State(), Call(now, UpdateWake(employee, org, url, secret));
      StepKeepsValid(before, call);
      var existing := EnsureBindingRow(employee, org, now);
      if existing.status == Revoked {
        RevokedAfterEnsure(before, call, existing);
        return Err(BindingRevoked);
      }
      LiveAfterEnsure(before, call, existing);
      ghost var ensured := State();
      var nextUrl := existing.wakeUrl;
      if url.Given? {
        var trimmed := Trim(url.value.GetOr([]));
        nextUrl := if trimmed != [] then Some(trimmed) else None;
      }
      PatchWakeSecret(employee, nextUrl, secret);
      ghost var mid := State();
      var next := Touch(existing.(wakeUrl := nextUrl, hasWake := employee in secrets), now);
      InstallOver(ensured, mid, employee, View(Some(next), At(mid, employee).secret));
      assert View(Some(next), At(mid, employee).secret)
          == StepLive(At(ensured, employee), existing, now, call.op).0;
      return Ok(next);
    }

    /** The part of `UpdateWakeWebhook` that edits the secret map. */
    method PatchWakeSecret(employee: Text, nextUrl: Option<Text>, secret: Field)
      modifies this`secrets
      ensures secrets - {employee} == old(secrets) - {employee}
      ensures At(State(), employee).secret
           == if Truthy(nextUrl) then PatchSecret(old(At(State(), employee).secret), secret) else None
    {
      if secret.Given? {
        var value := Trim(secret.value.GetOr([]));
        if value != [] {
          secrets := secrets[employee := value];
        } else {
          secrets := secrets - {employee};
        }
      }
      if !Truthy(nextUrl) {
        secrets := secrets - {employee};
      }
    }

    /** Seeds the demo bindings; running it again changes nothing (`SeedingIsIdempotent`). */
    method SeedDemoBindings(employees: seq<(Text, Text)>, linkSales: Option<bool>, hash: Text -> Text, now: int)
      requires Valid(State())
      modifies this
      ensures State() == Seeded(old(State()), employees, linkSales, hash, now)
      ensures Valid(State())
    {
      ghost var calls := EnsureCalls(employees, now);
      for i := 0 to |employees|
        invariant State() == Run(old(State()), calls[..i])
        invariant Valid(State())
      {
        var _ := EnsureBindingRow(employees[i].0, employees[i].1, now);
        assert calls[..i + 1][..i] == calls[..i];
      }
      assert calls[..|employees|] == calls;
      if linkSales == Some(false) {
        return;
      }
      ghost var s := State();
      var seeds := DemoSeeds(hash);
      SeedEachUnrolled(s, seeds, now);
      SeedBinding(SalesSeed(hash), now);
      SeedBinding(CommSeed(hash), now);
      SeedBinding(SnsSeed(hash), now);
      SeedBinding(OpsSeed(hash), now);
    }

    method SeedBinding(d: DemoSeed, now: int)
      requires Valid(State()) && d.agent != [] && (d.status == Linked || d.status == NeedsReauth)
      modifies this
      ensures State() == SeedOne(old(State()), d, now)
      ensures Valid(State())
    {
      SeedOneKeepsValid(State(), d, now);
      InstallSame(State(), d.employee);
      assert ViewOk(At(State(), d.employee), d.employee);
      if d.employee in rows && rows[d.employee].status == Unlinked && !Truthy(rows[d.employee].agentId) {
        var _ := Touch(SeededRow(rows[d.employee], d, now), now);
      }
    }

    /** The first row in insertion order that holds the fingerprint; the empty string finds nothing. */
    method FindBindingByCredentialFingerprint(fingerprint: Text) returns (r: Option<Binding>)
      requires Valid(State())
      ensures fingerprint == [] ==> r == None
      ensures r.None? && fingerprint != [] ==> forall e | e in rows :: rows[e].fingerprint != Some(fingerprint)
      ensures r.Some? ==>
        exists k :: && 0 <= k < |order| && r.value == rows[order[k]] && r.value.fingerprint == Some(fingerprint)
                    && forall j | 0 <= j < k :: rows[order[j]].fingerprint != Some(fingerprint)
    {
      if fingerprint == [] {
        return None;
      }
      for i := 0 to |order|
        invariant forall j | 0 <= j < i :: rows[order[j]].fingerprint != Some(fingerprint)
      {
        var b := rows[order[i]];
        if Truthy(b.fingerprint) && b.fingerprint == Some(fingerprint) {
          return Some(b);
        }
      }
      return None;
    }

    /** How many rows need a new credential, in one org or (for an empty or missing org id) in all. */
    method CountNeedsReauth(org: Option<Text>) returns (n: nat)
      requires Valid(State())
      ensures n == |set e | e in rows && rows[e].status == NeedsReauth
                            && (org.Some? && org.value != [] ==> rows[e].orgId == org.value)|
    {
      n := 0;
      for i := 0 to |order|
        invariant n == |Counted(rows, order[..i], org)|
      {
        var b := rows[order[i]];
        assert order[..i + 1] == order[..i] + [order[i]];
        CountedNext(rows, order[..i], order[i], org);
        if Truthy(org) && b.orgId != org.value {
          continue;
        }
        if b.status == NeedsReauth {
          n := n + 1;
        }
      }
      assert order[..|order|] == order;
      assert Counted(rows, order, org)
          == set e | e in rows && rows[e].status == NeedsReauth
                     && (org.Some? && org.value != [] ==> rows[e].orgId == org.value);
    }
  }

  /** Installing a view hides what the secret map held for that employee before. */
  lemma InstallOver(s: Store, t: Store, e: Text, v: View)
    requires t.rows == s.rows && t.order == s.order
    requires t.secrets - {e} == s.secrets - {e}
    ensures Install(t, e, v) == Install(s, e, v)
  {
    if v.secret.Some? {
      assert s.secrets[e := v.secret.value] == (s.secrets - {e})[e := v.secret.value];
      assert t.secrets[e := v.secret.value] == (t.secrets - {e})[e := v.secret.value];
    }
  }

  /** The employees among `keys` whose row counts. */
  function Counted(rows: map<Text, Binding>, keys: seq<Text>, org: Option<Text>): set<Text> {
    set e | e in keys && e in rows && CountsFor(rows[e], org)
  }

  lemma CountedNext(rows: map<Text, Binding>, keys: seq<Text>, key: Text, org: Option<Text>)
    requires key in rows && key !in keys
    ensures |Counted(rows, keys + [key], org)|
         == |Counted(rows, keys, org)| + if CountsFor(rows[key], org) then 1 else 0
  {
    var before := Counted(rows, keys, org);
    if CountsFor(rows[key], org) {
      assert Counted(rows, keys + [key], org) == before + {key};
    } else {
      assert Counted(rows, keys + [key], org) == before;
    }
  }

  // ----- seeding -----

  lemma SeedOneKeepsValid(s: Store, d: DemoSeed, now: int)
    requires Valid(s) && d.agent != [] && (d.status == Linked || d.status == NeedsReauth)
    ensures Valid(SeedOne(s, d, now))
  {
    var v := SeedView(At(s, d.employee), d, now);
    forall e
      ensures ViewOk(At(SeedOne(s, d, now), e), e)
    {
      assert ViewOk(At(s, e), e) && ViewOk(At(s, d.employee), d.employee);
      AtInstall(s, d.employee, v, e);
    }
    InstallKeepsOrder(s, d.employee, v);
  }

  lemma SeedEachUnrolled(s: Store, d: seq<DemoSeed>, now: int)
    requires |d| == 4
    ensures SeedEach(s, d, now) == SeedOne(SeedOne(SeedOne(SeedOne(s, d[0], now), d[1], now), d[2], now), d[3], now)
  {
    var three, two, one := d[..3], d[..2], d[..1];
    assert three[..2] == two && two[..1] == one && one[..0] == [];
    assert SeedEach(s, one, now) == SeedOne(s, d[0], now);
    assert SeedEach(s, two, now) == SeedOne(SeedEach(s, one, now), d[1], now);
    assert SeedEach(s, three, now) == SeedOne(SeedEach(s, two, now), d[2], now);
  }

  /** A row that is there and no longer untouched: seeding passes it by. */
  predicate Settled(v: View) {
    v.row.Some? ==> v.row.value.status != Unlinked || Truthy(v.row.value.agentId)
  }

  lemma {:induction false} SeedEachSettles(s: Store, seeds: seq<DemoSeed>, now: int, e: Text)
    requires forall d <- seeds :: d.agent != []
    ensures At(s, e).row.Some? <==> At(SeedEach(s, seeds, now), e).row.Some?
    ensures Settled(At(s, e)) || (exists d :: d in seeds && d.employee == e) ==> Settled(At(SeedEach(s, seeds, now), e))
  {
    if seeds != [] {
      var before, d := seeds[..|seeds| - 1], seeds[|seeds| - 1];
      assert d in seeds;
      SeedEachSettles(s, before, now, e);
      var mid := SeedEach(s, before, now);
      AtInstall(mid, d.employee, SeedView(At(mid, d.employee), d, now), e);
      if x :| x in seeds && x.employee == e {
        assert seeds == before + [d];
        assert x in before || x == d;
      }
    }
  }

  lemma {:induction false} SettledStays(s: Store, seeds: seq<DemoSeed>, now: int)
    requires forall d <- seeds :: Settled(At(s, d.employee))
    ensures SeedEach(s, seeds, now) == s
  {
    if seeds != [] {
      var before, d := seeds[..|seeds| - 1], seeds[|seeds| - 1];
      assert d in seeds;
      SettledStays(s, before, now);
      InstallSame(s, d.employee);
    }
  }

  lemma {:induction false} EnsuredStays(s: Store, calls: seq<Call>)
    requires forall c <- calls :: c.op.EnsureRow? && At(s, c.op.employee).row.Some?
    ensures Run(s, calls) == s
  {
    if calls != [] {
      var before, c := calls[..|calls| - 1], calls[|calls| - 1];
      assert c in calls;
      EnsuredStays(s, before);
      InstallSame(s, c.op.employee);
    }
  }

  lemma {:induction false} RunEnsures(s: Store, calls: seq<Call>, e: Text)
    requires forall c <- calls :: c.op.EnsureRow?
    requires exists c :: c in calls && c.op.employee == e
    ensures At(Run(s, calls), e).row.Some?
  {
    var before, c := calls[..|calls| - 1], calls[|calls| - 1];
    assert calls == before + [c] && c in calls;
    StepAt(Run(s, before), c, e);
    StepKeepsRow(At(Run(s, before), e), c);
    if c.op.employee != e {
      var x :| x in calls && x.op.employee == e;
      assert x in before;
      RunEnsures(s, before, e);
    }
  }

  /** Seeding a store that was seeded before, with the same roster, changes nothing at all. */
  lemma SeedingIsIdempotent(s: Store, employees: seq<(Text, Text)>, linkSales: Option<bool>,
                            hash: Text -> Text, now: int, later: int)
    ensures var once := Seeded(s, employees, linkSales, hash, now);
      Seeded(once, employees, linkSales, hash, later) == once
  {
    var once := Seeded(s, employees, linkSales, hash, now);
    var first, again := EnsureCalls(employees, now), EnsureCalls(employees, later);
    var ensured := Run(s, first);
    var seeds := DemoSeeds(hash);
    forall c | c in again
      ensures c.op.EnsureRow? && At(once, c.op.employee).row.Some?
    {
      var i :| 0 <= i < |again| && again[i] == c;
      assert first[i] in first && first[i].op == c.op;
      RunEnsures(s, first, c.op.employee);
      SeedEachSettles(ensured, seeds, now, c.op.employee);
    }
    EnsuredStays(once, again);
    if linkSales != Some(false) {
      forall d | d in seeds
        ensures Settled(At(once, d.employee))
      {
        SeedEachSettles(ensured, seeds, now, d.employee);
      }
      SettledStays(once, seeds, later);
    }
  }

  /** Seeding one employee after another seeds each of them, when their ids differ. */
  lemma {:induction false} SeedEachAt(s: Store, seeds: seq<DemoSeed>, now: int, k: nat)
    requires k < |seeds|
    requires forall i, j | 0 <= i < j < |seeds| :: seeds[i].employee != seeds[j].employee
    ensures At(SeedEach(s, seeds, now), seeds[k].employee)
         == SeedView(At(s, seeds[k].employee), seeds[k], now)
  {
    var n := |seeds| - 1;
    var before, d := seeds[..n], seeds[n];
    var mid := SeedEach(s, before, now);
    AtInstall(mid, d.employee, SeedView(At(mid, d.employee), d, now), seeds[k].employee);
    if k < n {
      SeedEachAt(s, before, now, k);
    } else {
      SeedEachElsewhere(s, before, now, d.employee);
    }
  }

  lemma {:induction false} SeedEachElsewhere(s: Store, seeds: seq<DemoSeed>, now: int, e: Text)
    requires forall i | 0 <= i < |seeds| :: seeds[i].employee != e
    ensures At(SeedEach(s, seeds, now), e) == At(s, e)
  {
    if seeds != [] {
      var n := |seeds| - 1;
      var mid := SeedEach(s, seeds[..n], now);
      SeedEachElsewhere(s, seeds[..n], now, e);
      AtInstall(mid, seeds[n].employee, SeedView(At(mid, seeds[n].employee), seeds[n], now), e);
    }
  }

  lemma SeedIdsDiffer(hash: Text -> Text)
    ensures var d := DemoSeeds(hash);
      forall i, j | 0 <= i < j < |d| :: d[i].employee != d[j].employee
  {
    assert |SalesSeed(hash).employee| == 9 && |CommSeed(hash).employee| == 8;
    assert |SnsSeed(hash).employee| == 7 && |OpsSeed(hash).employee| == 7;
    assert SnsSeed(hash).employee[4] == 's' as int && OpsSeed(hash).employee[4] == 'o' as int;
  }

  function SampleName(k: nat): string
    requires k < 4
  {
    ["sales", "comm", "sns", "ops"][k]
  }

  /** The demo data: names, badges, generations, and how long ago the employee was last seen well. */
  lemma SeedIs(hash: Text -> Text, k: nat)
    requires k < 4
    ensures var (d, name) := (DemoSeeds(hash)[k], SampleName(k));
      && d.employee == Literal("emp_" + name) && d.agent == Literal("gba_demo_" + name)
      && d.fingerprint == hash(Literal("demo-seed-" + name + if k == 3 then "-v2" else "-v1"))
      && d.generation == (if k == 3 then 2 else 1)
      && d.ago == [3600000, 1800000, 900000, 2 * 86400000][k]
  {
    assert "demo-seed-" + "sales" + "-v1" == "demo-seed-sales-v1";
    assert "demo-seed-" + "comm" + "-v1" == "demo-seed-comm-v1";
    assert "demo-seed-" + "sns" + "-v1" == "demo-seed-sns-v1";
    assert "demo-seed-" + "ops" + "-v2" == "demo-seed-ops-v2";
  }

  /** On a store that was never used, a sample employee's row is the seeded one. */
  lemma SeededRowAt(employees: seq<(Text, Text)>, hash: Text -> Text, now: int, k: nat) returns (b: Binding)
    requires k < 4
    requires exists i :: 0 <= i < |employees| && employees[i].0 == DemoSeeds(hash)[k].employee
    ensures At(Seeded(EMPTY_STORE, employees, None, hash, now), DemoSeeds(hash)[k].employee).row
         == Some(SeededRow(b, DemoSeeds(hash)[k], now))
  {
    var d := DemoSeeds(hash)[k];
    var calls := EnsureCalls(employees, now);
    var i :| 0 <= i < |employees| && employees[i].0 == d.employee;
    assert calls[i] in calls && calls[i].op.employee == d.employee;
    RunEnsures(EMPTY_STORE, calls, d.employee);
    EnsuredUntouched(calls, d.employee);
    SeedIdsDiffer(hash);
    SeedEachAt(Run(EMPTY_STORE, calls), DemoSeeds(hash), now, k);
    b := At(Run(EMPTY_STORE, calls), d.employee).row.value;
  }

  /** The seeded sample employees are executable, except the one that must relink, and hold the demo data. */
  lemma SeededVerdict(employees: seq<(Text, Text)>, hash: Text -> Text, now: int, k: nat)
    requires k < 4
    requires exists i :: 0 <= i < |employees| && employees[i].0 == DemoSeeds(hash)[k].employee
    ensures var d := DemoSeeds(hash)[k];
      var v := At(Seeded(EMPTY_STORE, employees, None, hash, now), d.employee);
      && ViewVerdict(v) == (if k == 3 then DeniedReauth else Executable)
      && v.row.Some?
      && v.row.value.agentId == Some(d.agent)
      && v.row.value.generation == d.generation
      && v.row.value.fingerprint == Some(d.fingerprint)
      && v.row.value.lastSuccessAt == Some(now - d.ago)
  {
    var b := SeededRowAt(employees, hash, now, k);
  }

  lemma {:induction false} EnsuredUntouched(calls: seq<Call>, e: Text)
    requires forall c <- calls :: c.op.EnsureRow?
    ensures var v := At(Run(EMPTY_STORE, calls), e);
      v.row.Some? ==> v.row.value.status == Unlinked && v.row.value.agentId == None
  {
    if calls != [] {
      var before, c := calls[..|calls| - 1], calls[|calls| - 1];
      assert c in calls;
      EnsuredUntouched(before, e);
      StepAt(Run(EMPTY_STORE, before), c, e);
    }
  }
}
