/**
  The demo back office: hires, approval tickets, members and the audit trail, kept
  in arrays changed in place, beside the binding store of the employees.
 */
module RuntimeStore {
  import opened Options
  import opened CodeUnits
  import B = Bindings
  import BindingStore

  datatype Employee = Employee(id: Text, orgId: Text, credentialId: Text)

  datatype Decision = Approved | Rejected | RevisionRequested

  datatype TicketStatus = Pending | Decided(decision: Decision)

  datatype Ticket = Ticket(
    id: Text, employeeId: Text, credentialId: Text, title: Text,
    status: TicketStatus, revisionNote: Option<Text>, revisionCount: int,
    createdAt: int, resolvedAt: Option<int>, resolvedBy: Option<Text>)

  datatype AuditAction =
    | HiredAction | RequestedAction | ResolvedAction | RevisionAction | MemberAction | GatewayAction

  datatype AuditRecord = AuditRecord(action: AuditAction, employeeId: Option<Text>, decision: Option<Decision>, at: int)

  datatype Member = Member(id: Text, displayName: Text)

  datatype Gateway = GatewayLinked | GatewayPending | GatewayDisconnected

  datatype Demo = Demo(
    employees: seq<Employee>, tickets: seq<Ticket>, audit: seq<AuditRecord>,
    members: seq<Member>, gateway: Gateway, bindings: B.Store)

  /** A new ticket as filed; its id is minted by the program and passed in here. */
  datatype Filing = Filing(id: Text, employeeId: Text, credentialId: Text, title: Text, revisionCount: Option<int>)

  datatype Op =
    | Hire(employee: Employee)
    | File(filing: Filing)
    | Resolve(id: Text, decision: Decision, resolvedBy: Text, note: Option<Text>)
    | UpsertMember(member: Member, audited: bool)
    | SetMember(member: Member)
    | ResetMembers(sample: seq<Member>)
    | SetGateway(status: Gateway)
    | OnBindings(op: B.Op)

  datatype Call = Call(now: int, op: Op)

  function Filed(f: Filing, now: int): Ticket {
    Ticket(f.id, f.employeeId, f.credentialId, f.title, Pending, None, f.revisionCount.GetOr(0), now, None, None)
  }

  function Resolution(t: Ticket, decision: Decision, by_: Text, note: Option<Text>, now: int): Ticket {
    t.(status := Decided(decision),
       revisionNote := if decision == RevisionRequested then NonEmpty(Trim(note.GetOr([]))) else None,
       revisionCount := if decision == RevisionRequested then t.revisionCount + 1 else t.revisionCount,
       resolvedAt := Some(now), resolvedBy := Some(by_))
  }

  function IndexOfTicket(tickets: seq<Ticket>, id: Text): (r: Option<nat>)
    ensures r.Some? ==> r.value < |tickets| && tickets[r.value].id == id
                        && forall j | 0 <= j < r.value :: tickets[j].id != id
    ensures r.None? ==> forall t <- tickets :: t.id != id
  {
    if tickets == [] then None
    else if tickets[0].id == id then Some(0)
    else
      match IndexOfTicket(tickets[1..], id)
      case Some(i) => Some(i + 1)
      case None => None
  }

  function IndexOfMember(members: seq<Member>, id: Text): (r: Option<nat>)
    ensures r.Some? ==> r.value < |members| && members[r.value].id == id
    ensures r.None? ==> forall m <- members :: m.id != id
  {
    if members == [] then None
    else if members[0].id == id then Some(0)
    else
      match IndexOfMember(members[1..], id)
      case Some(i) => Some(i + 1)
      case None => None
  }

  function Record(d: Demo, r: AuditRecord): Demo {
    d.(audit := [r] + d.audit)
  }

  function Step(d: Demo, c: Call): Demo {
    match c.op
    case Hire(e) =>
      Record(d.(employees := [e] + d.employees,
                bindings := B.Step(d.bindings, B.Call(c.now, B.EnsureRow(e.id, e.orgId))).0),
             AuditRecord(HiredAction, Some(e.id), None, c.now))
    case File(f) =>
      Record(d.(tickets := [Filed(f, c.now)] + d.tickets),
             AuditRecord(RequestedAction, Some(f.employeeId), None, c.now))
    case Resolve(id, decision, by_, note) =>
      (match IndexOfTicket(d.tickets, id)
       case None => d
       case Some(i) =>
         Record(d.(tickets := d.tickets[i := Resolution(d.tickets[i], decision, by_, note, c.now)]),
                AuditRecord(if decision == RevisionRequested then RevisionAction else ResolvedAction,
                            Some(d.tickets[i].employeeId), Some(decision), c.now)))
    case UpsertMember(m, audited) =>
      var members := match IndexOfMember(d.members, m.id)
                     case Some(i) => d.members[i := m]
                     case None => [m] + d.members;
      if audited then Record(d.(members := members), AuditRecord(MemberAction, None, None, c.now))
      else d.(members := members)
    case SetMember(m) =>
      d.(members := match IndexOfMember(d.members, m.id)
                    case Some(i) => d.members[i := m]
                    case None => d.members + [m])
    case ResetMembers(sample) =>
      d.(members := sample)
    case SetGateway(status) =>
      Record(d.(gateway := status), AuditRecord(GatewayAction, None, None, c.now))
    case OnBindings(op) =>
      d.(bindings := B.Step(d.bindings, B.Call(c.now, op)).0)
  }

  function Run(d: Demo, calls: seq<Call>): Demo {
    if calls == [] then d else Step(Run(d, calls[..|calls| - 1]), calls[|calls| - 1])
  }

  // ----- invariants of every run -----

  /** Pending exactly while unresolved; a note is a correction somebody asked for. */
  predicate TicketOk(t: Ticket) {
    && (t.resolvedAt.None? <==> t.status == Pending)
    && (t.resolvedBy.None? <==> t.status == Pending)
    && (t.revisionNote.Some? ==> t.status == Decided(RevisionRequested) && t.revisionNote.value != [])
  }

  ghost predicate Valid(d: Demo) {
    && B.Valid(d.bindings)
    && (forall e <- d.employees :: B.At(d.bindings, e.id).row.Some?)
    && (forall t <- d.tickets :: TicketOk(t))
  }

  lemma BindingsStep(s: B.Store, c: B.Call, e: Text)
    requires B.Valid(s)
    ensures B.Valid(B.Step(s, c).0)
    ensures B.At(s, e).row.Some? ==> B.At(B.Step(s, c).0, e).row.Some?
    ensures B.Creates(c.op, e) ==> B.At(B.Step(s, c).0, e).row.Some?
  {
    B.StepKeepsValid(s, c);
    B.StepAt(s, c, e);
    B.StepKeepsRow(B.At(s, e), c);
  }

  lemma StepKeepsTickets(d: Demo, c: Call)
    requires forall t <- d.tickets :: TicketOk(t)
    ensures forall t <- Step(d, c).tickets :: TicketOk(t)
  {
  }

  lemma StepKeepsValid(d: Demo, c: Call)
    requires Valid(d)
    ensures Valid(Step(d, c))
  {
    StepKeepsTickets(d, c);
    var d' := Step(d, c);
    if c.op.Hire? || c.op.OnBindings? {
      var call := if c.op.Hire? then B.Call(c.now, B.EnsureRow(c.op.employee.id, c.op.employee.orgId))
                  else B.Call(c.now, c.op.op);
      B.StepKeepsValid(d.bindings, call);
      forall e | e in d'.employees
        ensures B.At(d'.bindings, e.id).row.Some?
      {
        BindingsStep(d.bindings, call, e.id);
      }
    }
  }

  /** At every point of a run each listed employee has a binding row and every ticket is in order. */
  lemma {:induction false} RunKeepsValid(d: Demo, calls: seq<Call>, k: nat)
    requires Valid(d) && k <= |calls|
    ensures Valid(Run(d, calls[..k]))
  {
    if k > 0 {
      RunKeepsValid(d, calls, k - 1);
      assert calls[..k][..k - 1] == calls[..k - 1];
      StepKeepsValid(Run(d, calls[..k - 1]), calls[k - 1]);
    }
  }

  // ----- the history of one ticket -----

  /** The decisions made on ticket `id`, oldest first. */
  function DecisionsOn(id: Text, calls: seq<Call>): seq<Call> {
    if calls == [] then []
    else
      var before := DecisionsOn(id, calls[..|calls| - 1]);
      var c := calls[|calls| - 1];
      if c.op.Resolve? && c.op.id == id then before + [c] else before
  }

  function Revisions(decisions: seq<Call>): nat {
    if decisions == [] then 0
    else
      var c := decisions[|decisions| - 1];
      Revisions(decisions[..|decisions| - 1]) + if c.op.Resolve? && c.op.decision == RevisionRequested then 1 else 0
  }

  /** A ticket after some decisions: the last one stands, and revisions have been counted. */
  function AfterDecisions(t: Ticket, decisions: seq<Call>): Ticket {
    if decisions == [] || !decisions[|decisions| - 1].op.Resolve? then t
    else
      var last := decisions[|decisions| - 1];
      t.(status := Decided(last.op.decision),
         revisionNote := if last.op.decision == RevisionRequested then NonEmpty(Trim(last.op.note.GetOr([]))) else None,
         revisionCount := t.revisionCount + Revisions(decisions),
         resolvedAt := Some(last.now), resolvedBy := Some(last.op.resolvedBy))
  }

  function TicketOf(d: Demo, id: Text): Option<Ticket> {
    match IndexOfTicket(d.tickets, id)
    case Some(i) => Some(d.tickets[i])
    case None => None
  }

  /** `id` is not filed again; ids are minted at random by the program. */
  predicate NotRefiled(id: Text, calls: seq<Call>) {
    forall c <- calls :: !(c.op.File? && c.op.filing.id == id)
  }

  /** A call touches only the ticket it decides. */
  lemma TicketStep(d: Demo, c: Call, id: Text)
    requires !(c.op.File? && c.op.filing.id == id)
    ensures TicketOf(Step(d, c), id)
         == match TicketOf(d, id)
            case None => None
            case Some(t) =>
              if c.op.Resolve? && c.op.id == id
              then Some(Resolution(t, c.op.decision, c.op.resolvedBy, c.op.note, c.now)) else Some(t)
  {
    match c.op {
      case File(f) =>
        assert ([Filed(f, c.now)] + d.tickets)[1..] == d.tickets;
      case Resolve(rid, decision, by_, note) =>
        var i := IndexOfTicket(d.tickets, rid);
        if i.Some? {
          UpdateKeepsIndex(d.tickets, i.value, Resolution(d.tickets[i.value], decision, by_, note, c.now), id);
        }
      case _ =>
    }
  }

  lemma {:induction false} UpdateKeepsIndex(tickets: seq<Ticket>, i: nat, t: Ticket, id: Text)
    requires i < |tickets| && t.id == tickets[i].id
    ensures IndexOfTicket(tickets[i := t], id) == IndexOfTicket(tickets, id)
  {
    if i > 0 {
      assert tickets[i := t][1..] == tickets[1..][i - 1 := t];
      UpdateKeepsIndex(tickets[1..], i - 1, t, id);
    } else {
      assert tickets[0 := t][1..] == tickets[1..];
    }
  }

  predicate AllResolves(decisions: seq<Call>) {
    forall c <- decisions :: c.op.Resolve?
  }

  lemma RevisionsNext(decisions: seq<Call>, c: Call)
    requires c.op.Resolve?
    ensures Revisions(decisions + [c]) == Revisions(decisions) + if c.op.decision == RevisionRequested then 1 else 0
  {
    assert (decisions + [c])[..|decisions|] == decisions;
  }

  /** One more decision on a ticket is one more resolution of what the earlier ones made of it. */
  lemma AfterOneMore(t: Ticket, decisions: seq<Call>, c: Call)
    requires AllResolves(decisions) && c.op.Resolve?
    ensures AfterDecisions(t, decisions + [c])
         == Resolution(AfterDecisions(t, decisions), c.op.decision, c.op.resolvedBy, c.op.note, c.now)
  {
    RevisionsNext(decisions, c);
    assert decisions != [] ==> decisions[|decisions| - 1] in decisions;
  }

  lemma {:induction false} DecisionsAreResolves(id: Text, calls: seq<Call>)
    ensures AllResolves(DecisionsOn(id, calls))
  {
    if calls != [] {
      DecisionsAreResolves(id, calls[..|calls| - 1]);
    }
  }

  /**
    After any run a ticket is what its own decisions made of it: the last decision
    stands (a ticket can be decided again), the note is the last decision's, and the
    revision count is the filed one plus the number of revision decisions.
   */
  lemma {:induction false} TicketFollowsDecisions(d: Demo, calls: seq<Call>, id: Text)
    requires TicketOf(d, id).Some? && NotRefiled(id, calls)
    ensures TicketOf(Run(d, calls), id) == Some(AfterDecisions(TicketOf(d, id).value, DecisionsOn(id, calls)))
  {
    if calls != [] {
      var before, c := calls[..|calls| - 1], calls[|calls| - 1];
      assert c in calls;
      TicketFollowsDecisions(d, before, id);
      TicketStep(Run(d, before), c, id);
      DecisionsAreResolves(id, before);
      if c.op.Resolve? && c.op.id == id {
        AfterOneMore(TicketOf(d, id).value, DecisionsOn(id, before), c);
      }
    }
  }

  /** A filed ticket waits in front of the others, as it was filed, until it is decided. */
  lemma FiledIsPending(d: Demo, c: Call)
    requires c.op.File?
    ensures var (f, d') := (c.op.filing, Step(d, c));
      && d'.tickets[1..] == d.tickets && TicketOf(d', f.id) == Some(d'.tickets[0])
      && var t := d'.tickets[0];
        && t.id == f.id && t.employeeId == f.employeeId && t.credentialId == f.credentialId && t.title == f.title
        && t.status == Pending && t.createdAt == c.now && t.revisionNote == None && t.resolvedAt == None
        && t.revisionCount == (if f.revisionCount.Some? then f.revisionCount.value else 0)
  {
  }

  // ----- employees and the gateway -----

  /** The employees hired, the latest first. */
  function Hires(calls: seq<Call>): seq<Employee> {
    if calls == [] then []
    else
      var c := calls[|calls| - 1];
      (if c.op.Hire? then [c.op.employee] else []) + Hires(calls[..|calls| - 1])
  }

  lemma EmployeesStep(d: Demo, c: Call)
    ensures Step(d, c).employees == (if c.op.Hire? then [c.op.employee] else []) + d.employees
    ensures Step(d, c).gateway == if c.op.SetGateway? then c.op.status else d.gateway
  {
  }

  lemma EmployeesNext(d: Demo, before: seq<Call>, c: Call, all: seq<Call>)
    requires all == before + [c]
    ensures Run(d, all).employees == (if c.op.Hire? then [c.op.employee] else []) + Run(d, before).employees
    ensures Hires(all) == (if c.op.Hire? then [c.op.employee] else []) + Hires(before)
  {
    assert all[..|all| - 1] == before;
    EmployeesStep(Run(d, before), c);
  }

  lemma Regroup(a: seq<Employee>, b: seq<Employee>, c: seq<Employee>)
    ensures a + (b + c) == a + b + c
  {
  }

  /** The list of employees is the hires, the latest first, and then those of the start. */
  lemma {:induction false} EmployeesAreHires(d: Demo, calls: seq<Call>)
    ensures Run(d, calls).employees == Hires(calls) + d.employees
  {
    if calls != [] {
      var before, c := calls[..|calls| - 1], calls[|calls| - 1];
      EmployeesAreHires(d, before);
      EmployeesNext(d, before, c, calls);
      Regroup(if c.op.Hire? then [c.op.employee] else [], Hires(before), d.employees);
    }
  }

  /** A hire without a binding gets one in the employee's org, made at the time of the hire. */
  lemma HireBinds(d: Demo, c: Call)
    requires c.op.Hire? && B.At(d.bindings, c.op.employee.id).row.None?
    ensures var v := B.At(Step(d, c).bindings, c.op.employee.id);
      v.row.Some? && v.row.value.orgId == c.op.employee.orgId && v.row.value.createdAt == c.now
      && B.ViewVerdict(v) == B.Unbound
  {
    B.StepAt(d.bindings, B.Call(c.now, B.EnsureRow(c.op.employee.id, c.op.employee.orgId)), c.op.employee.id);
  }

  lemma {:induction false} GatewayStays(d: Demo, calls: seq<Call>, k: nat)
    requires k <= |calls| && forall j | k <= j < |calls| :: !calls[j].op.SetGateway?
    ensures Run(d, calls).gateway == Run(d, calls[..k]).gateway
  {
    if k == |calls| {
      assert calls[..k] == calls;
    } else {
      var before := calls[..|calls| - 1];
      assert before[..k] == calls[..k];
      GatewayStays(d, before, k);
      EmployeesStep(Run(d, before), calls[|calls| - 1]);
    }
  }

  /** The gateway's status is the last one set, and the starting one when none was. */
  lemma GatewayIsLastSet(d: Demo, calls: seq<Call>)
    ensures forall k | 0 <= k < |calls| && calls[k].op.SetGateway?
                       && (forall j | k < j < |calls| :: !calls[j].op.SetGateway?) ::
        Run(d, calls).gateway == calls[k].op.status
    ensures (forall k | 0 <= k < |calls| :: !calls[k].op.SetGateway?) ==> Run(d, calls).gateway == d.gateway
  {
    forall k | 0 <= k < |calls| && calls[k].op.SetGateway?
               && (forall j | k < j < |calls| :: !calls[j].op.SetGateway?)
      ensures Run(d, calls).gateway == calls[k].op.status
    {
      GatewayStays(d, calls, k + 1);
      assert calls[..k + 1][..k] == calls[..k];
      EmployeesStep(Run(d, calls[..k]), calls[k]);
    }
    if forall k | 0 <= k < |calls| :: !calls[k].op.SetGateway? {
      GatewayStays(d, calls, 0);
    }
  }

  // ----- members -----

  function FindMember(members: seq<Member>, id: Text): Option<Member> {
    match IndexOfMember(members, id)
    case Some(i) => Some(members[i])
    case None => None
  }

  function MemberOf(d: Demo, id: Text): Option<Member> {
    FindMember(d.members, id)
  }

  lemma {:induction false} PushMember(members: seq<Member>, m: Member, id: Text)
    requires forall x <- members :: x.id != m.id
    ensures FindMember(members + [m], id) == if m.id == id then Some(m) else FindMember(members, id)
  {
    if members != [] {
      assert (members + [m])[1..] == members[1..] + [m];
      PushMember(members[1..], m, id);
    }
  }

  lemma {:induction false} ReplaceMember(members: seq<Member>, i: nat, m: Member, id: Text)
    requires i < |members| && m.id == members[i].id
    ensures IndexOfMember(members[i := m], id) == IndexOfMember(members, id)
  {
    if i > 0 {
      assert members[i := m][1..] == members[1..][i - 1 := m];
      ReplaceMember(members[1..], i - 1, m, id);
    } else {
      assert members[0 := m][1..] == members[1..];
    }
  }

  /** The call decides what the member with this id is: by storing it, or by starting over with the sample. */
  predicate WritesMember(c: Call, id: Text) {
    match c.op
    case UpsertMember(m, _) => m.id == id
    case SetMember(m) => m.id == id
    case ResetMembers(_) => true
    case _ => false
  }

  function WrittenMember(c: Call, id: Text): Option<Member> {
    match c.op
    case UpsertMember(m, _) => Some(m)
    case SetMember(m) => Some(m)
    case ResetMembers(sample) => FindMember(sample, id)
    case _ => None
  }

  lemma MemberStep(d: Demo, c: Call, id: Text)
    ensures MemberOf(Step(d, c), id) == if WritesMember(c, id) then WrittenMember(c, id) else MemberOf(d, id)
  {
    if c.op.UpsertMember? || c.op.SetMember? {
      var m := c.op.member;
      var i := IndexOfMember(d.members, m.id);
      if i.Some? {
        ReplaceMember(d.members, i.value, m, id);
      } else if c.op.UpsertMember? {
        assert ([m] + d.members)[1..] == d.members;
      } else {
        PushMember(d.members, m, id);
      }
    }
  }

  lemma MemberAfter(d: Demo, calls: seq<Call>, k: nat, id: Text)
    requires k < |calls|
    ensures MemberOf(Run(d, calls[..k + 1]), id)
         == if WritesMember(calls[k], id) then WrittenMember(calls[k], id) else MemberOf(Run(d, calls[..k]), id)
  {
    assert calls[..k + 1][..k] == calls[..k];
    MemberStep(Run(d, calls[..k]), calls[k], id);
  }

  lemma {:induction false} MemberStays(d: Demo, calls: seq<Call>, k: nat, n: nat, id: Text)
    requires k <= n <= |calls| && forall j | k <= j < n :: !WritesMember(calls[j], id)
    ensures MemberOf(Run(d, calls[..n]), id) == MemberOf(Run(d, calls[..k]), id)
  {
    if k < n {
      MemberStays(d, calls, k, n - 1, id);
      MemberAfter(d, calls, n - 1, id);
    }
  }

  /** Of the first `n` calls the `k`-th is the last to write the member. */
  ghost predicate LastMemberWrite(calls: seq<Call>, k: nat, n: nat, id: Text)
    requires k < n <= |calls|
  {
    WritesMember(calls[k], id) && forall j | k < j < n :: !WritesMember(calls[j], id)
  }

  /**
    After `n` calls a member is what the last call storing it, or starting over,
    made it, and what it was at the start when there was none.
   */
  lemma MemberIsLastWritten(d: Demo, calls: seq<Call>, n: nat, id: Text)
    requires n <= |calls|
    ensures forall k | 0 <= k < n && LastMemberWrite(calls, k, n, id) ::
        MemberOf(Run(d, calls[..n]), id) == WrittenMember(calls[k], id)
    ensures (forall k | 0 <= k < n :: !WritesMember(calls[k], id))
        ==> MemberOf(Run(d, calls[..n]), id) == MemberOf(d, id)
  {
    forall k | 0 <= k < n && LastMemberWrite(calls, k, n, id)
      ensures MemberOf(Run(d, calls[..n]), id) == WrittenMember(calls[k], id)
    {
      MemberAfter(d, calls, k, id);
      MemberStays(d, calls, k + 1, n, id);
    }
    if forall k | 0 <= k < n :: !WritesMember(calls[k], id) {
      MemberStays(d, calls, 0, n, id);
    }
  }

  // ----- the audit trail -----

  /** Ticket `id` was there at the start or has been filed. */
  ghost predicate TicketKnown(d: Demo, id: Text, calls: seq<Call>) {
    (exists t :: t in d.tickets && t.id == id) || exists c :: c in calls && c.op.File? && c.op.filing.id == id
  }

  /** The calls that leave a record, by what came before them. */
  ghost predicate LeavesRecord(d: Demo, before: seq<Call>, op: Op) {
    match op
    case Resolve(id, _, _, _) => TicketKnown(d, id, before)
    case UpsertMember(_, audited) => audited
    case SetMember(_) => false
    case ResetMembers(_) => false
    case OnBindings(_) => false
    case _ => true
  }

  ghost function RecordCount(d: Demo, calls: seq<Call>): nat {
    if calls == [] then 0
    else
      var before, c := calls[..|calls| - 1], calls[|calls| - 1];
      RecordCount(d, before) + if LeavesRecord(d, before, c.op) then 1 else 0
  }

  lemma {:induction false} KnownTickets(d: Demo, calls: seq<Call>, id: Text)
    ensures TicketKnown(d, id, calls) <==> exists t :: t in Run(d, calls).tickets && t.id == id
  {
    if calls != [] {
      var before, c := calls[..|calls| - 1], calls[|calls| - 1];
      assert calls == before + [c];
      KnownTickets(d, before, id);
      TicketIdsStep(Run(d, before), c, id);
    }
  }

  lemma TicketIdsStep(d: Demo, c: Call, id: Text)
    ensures (exists t :: t in Step(d, c).tickets && t.id == id)
       <==> (exists t :: t in d.tickets && t.id == id) || (c.op.File? && c.op.filing.id == id)
  {
    var d' := Step(d, c);
    if t :| t in d.tickets && t.id == id {
      var i :| 0 <= i < |d.tickets| && d.tickets[i] == t;
      var j := if c.op.File? then i + 1 else i;
      assert d'.tickets[j].id == id && d'.tickets[j] in d'.tickets;
    }
    if c.op.File? && c.op.filing.id == id {
      assert d'.tickets[0].id == id && d'.tickets[0] in d'.tickets;
    }
    if t :| t in d'.tickets && t.id == id {
      var j :| 0 <= j < |d'.tickets| && d'.tickets[j] == t;
      if c.op.File? {
        assert j > 0 ==> d.tickets[j - 1] == t;
      } else {
        assert d.tickets[j].id == id && d.tickets[j] in d.tickets;
      }
    }
  }

  /** A call that finds what it needs puts one record in front of the trail. */
  predicate Records(d: Demo, op: Op) {
    match op
    case Resolve(id, _, _, _) => IndexOfTicket(d.tickets, id).Some?
    case UpsertMember(_, audited) => audited
    case SetMember(_) => false
    case ResetMembers(_) => false
    case OnBindings(_) => false
    case _ => true
  }

  lemma AuditStep(d: Demo, c: Call)
    ensures var audit := Step(d, c).audit;
      if Records(d, c.op) then |audit| == |d.audit| + 1 && audit[1..] == d.audit else audit == d.audit
  {
  }

  /** The trail only ever grows at the front, by one record for each call that leaves one. */
  lemma {:induction false} AuditOnlyGrows(d: Demo, calls: seq<Call>)
    ensures var audit := Run(d, calls).audit;
      |audit| == RecordCount(d, calls) + |d.audit| && audit[RecordCount(d, calls)..] == d.audit
  {
    if calls != [] {
      var before, c := calls[..|calls| - 1], calls[|calls| - 1];
      AuditOnlyGrows(d, before);
      if c.op.Resolve? {
        KnownTickets(d, before, c.op.id);
      }
      var s, n := Run(d, before), RecordCount(d, before);
      AuditStep(s, c);
      assert Records(s, c.op) <==> LeavesRecord(d, before, c.op);
      var audit := Step(s, c).audit;
      if Records(s, c.op) {
        assert audit[n + 1..] == audit[1..][n..];
      }
    }
  }

  /** What a record says: when, what happened, to whom, and what was decided. */
  lemma RecordTells(d: Demo, c: Call)
    requires Records(d, c.op)
    ensures var (audit, r) := (Step(d, c).audit, Step(d, c).audit[0]);
      && audit == [r] + d.audit && r.at == c.now
      && (r.action == HiredAction <==> c.op.Hire?)
      && (r.action == RequestedAction <==> c.op.File?)
      && (r.action == MemberAction <==> c.op.UpsertMember?)
      && (r.action == GatewayAction <==> c.op.SetGateway?)
      && (r.action == RevisionAction <==> c.op.Resolve? && c.op.decision == RevisionRequested)
      && r.decision == (if c.op.Resolve? then Some(c.op.decision) else None)
      && r.employeeId == (match c.op
                          case Hire(e) => Some(e.id)
                          case File(f) => Some(f.employeeId)
                          case Resolve(id, _, _, _) => Some(TicketOf(d, id).value.employeeId)
                          case _ => None)
  {
  }

  /** The same trail, or one more record in front. */
  predicate IsNextTrail(audit: seq<AuditRecord>, next: seq<AuditRecord>) {
    next == audit || (|next| == |audit| + 1 && next[1..] == audit)
  }

  predicate EndsWith(audit: seq<AuditRecord>, earlier: seq<AuditRecord>) {
    |earlier| <= |audit| && audit[|audit| - |earlier|..] == earlier
  }

  lemma {:induction false} TrailEndsWith(trails: nat -> seq<AuditRecord>, k: nat, n: nat)
    requires k <= n && forall j: nat | k <= j < n :: IsNextTrail(trails(j), trails(j + 1))
    ensures EndsWith(trails(n), trails(k))
  {
    if k < n {
      TrailEndsWith(trails, k, n - 1);
      var audit, next := trails(n - 1), trails(n);
      assert IsNextTrail(audit, next);
      if next != audit {
        assert next[|next| - |trails(k)|..] == next[1..][|audit| - |trails(k)|..];
      }
    }
  }

  function TrailAfter(d: Demo, calls: seq<Call>, k: nat): seq<AuditRecord> {
    if k <= |calls| then Run(d, calls[..k]).audit else []
  }

  lemma TrailNext(d: Demo, calls: seq<Call>, k: nat)
    requires k < |calls|
    ensures IsNextTrail(TrailAfter(d, calls, k), TrailAfter(d, calls, k + 1))
  {
    assert calls[..k + 1][..k] == calls[..k];
    AuditStep(Run(d, calls[..k]), calls[k]);
  }

  lemma RecordIsThere(d: Demo, calls: seq<Call>, k: nat)
    requires k < |calls| && Records(Run(d, calls[..k]), calls[k].op)
    ensures TrailAfter(d, calls, k + 1) != []
  {
    assert calls[..k + 1][..k] == calls[..k];
    AuditStep(Run(d, calls[..k]), calls[k]);
  }

  /** What the `k`-th call recorded is in the trail for good, below the records of the calls after it. */
  lemma RecordStays(d: Demo, calls: seq<Call>, k: nat)
    requires k < |calls| && Records(Run(d, calls[..k]), calls[k].op)
    ensures TrailAfter(d, calls, k + 1) != []
    ensures EndsWith(TrailAfter(d, calls, |calls|), TrailAfter(d, calls, k + 1))
  {
    RecordIsThere(d, calls, k);
    forall j: nat | k + 1 <= j < |calls|
      ensures IsNextTrail(TrailAfter(d, calls, j), TrailAfter(d, calls, j + 1))
    {
      TrailNext(d, calls, j);
    }
    TrailEndsWith((j: nat) => TrailAfter(d, calls, j), k + 1, |calls|);
  }

  // ----- the store as the program keeps it -----

  class RuntimeStore {
    var employees: seq<Employee>
    var tickets: seq<Ticket>
    var audit: seq<AuditRecord>
    var members: seq<Member>
    var gateway: Gateway
    const bindings: BindingStore.BindingStore

    ghost function State(): Demo
      reads this, bindings
    {
      Demo(employees, tickets, audit, members, gateway, bindings.State())
    }

    /** Starts from the demo records; every sample employee must have been seeded with a binding. */
    constructor (bindings: BindingStore.BindingStore, employees: seq<Employee>, tickets: seq<Ticket>,
                 audit: seq<AuditRecord>, members: seq<Member>, gateway: Gateway)
      requires Valid(Demo(employees, tickets, audit, members, gateway, bindings.State()))
      ensures State() == Demo(employees, tickets, audit, members, gateway, bindings.State())
      ensures Valid(State()) && this.bindings == bindings
    {
      this.bindings := bindings;
      this.employees, this.tickets, this.audit := employees, tickets, audit;
      this.members, this.gateway := members, gateway;
    }

    method AddRuntimeEmployee(employee: Employee, now: int)
      requires Valid(State())
      modifies this, bindings
      ensures State() == Step(old(State()), Call(now, Hire(employee))) && Valid(State())
    {
      StepKeepsValid(State(), Call(now, Hire(employee)));
      employees := [employee] + employees;
      var _ := bindings.EnsureBindingRow(employee.id, employee.orgId, now);
      audit := [AuditRecord(HiredAction, Some(employee.id), None, now)] + audit;
    }

    method PushRuntimeApproval(filing: Filing, now: int) returns (row: Ticket)
      requires Valid(State())
      modifies this
      ensures State() == Step(old(State()), Call(now, File(filing))) && Valid(State())
      ensures tickets == [row] + old(tickets) && row == Filed(filing, now)
    {
      StepKeepsValid(State(), Call(now, File(filing)));
      row := Ticket(filing.id, filing.employeeId, filing.credentialId, filing.title, Pending, None,
                    filing.revisionCount.GetOr(0), now, None, None);
      tickets := [row] + tickets;
      audit := [AuditRecord(RequestedAction, Some(row.employeeId), None, now)] + audit;
    }

    method ResolveRuntimeApproval(id: Text, decision: Decision, resolvedBy: Text, note: Option<Text>, now: int)
      returns (r: Option<Ticket>)
      requires Valid(State())
      modifies this
      ensures State() == Step(old(State()), Call(now, Resolve(id, decision, resolvedBy, note))) && Valid(State())
      ensures r == if old(TicketOf(State(), id)).Some? then TicketOf(State(), id) else None
    {
      ghost var call := Call(now, Resolve(id, decision, resolvedBy, note));
      StepKeepsValid(State(), call);
      TicketStep(State(), call, id);
      var found := IndexOfTicket(tickets, id);
      if found.None? {
        return None;
      }
      var idx := found.value;
      var next := Resolution(tickets[idx], decision, resolvedBy, note, now);
      tickets := tickets[idx := next];
      audit := [AuditRecord(if decision == RevisionRequested then RevisionAction else ResolvedAction,
                            Some(next.employeeId), Some(decision), now)] + audit;
      return Some(next);
    }

    method UpsertRuntimeMember(member: Member, audited: bool, now: int)
      requires Valid(State())
      modifies this
      ensures State() == Step(old(State()), Call(now, UpsertMember(member, audited))) && Valid(State())
    {
      StepKeepsValid(State(), Call(now, UpsertMember(member, audited)));
      var found := IndexOfMember(members, member.id);
      if found.Some? {
        members := members[found.value := member];
      } else {
        members := [member] + members;
      }
      if !audited {
        return;
      }
      audit := [AuditRecord(MemberAction, None, None, now)] + audit;
    }

    method SetRuntimeMember(member: Member, now: int)
      requires Valid(State())
      modifies this
      ensures State() == Step(old(State()), Call(now, SetMember(member))) && Valid(State())
    {
      StepKeepsValid(State(), Call(now, SetMember(member)));
      var found := IndexOfMember(members, member.id);
      if found.Some? {
        members := members[found.value := member];
      } else {
        members := members + [member];
      }
    }

    /** Starts over with copies of the sample members. */
    method ResetRuntimeMembers(sample: seq<Member>, now: int)
      requires Valid(State())
      modifies this
      ensures State() == Step(old(State()), Call(now, ResetMembers(sample))) && Valid(State())
    {
      StepKeepsValid(State(), Call(now, ResetMembers(sample)));
      members := [];
      for i := 0 to |sample|
        invariant members == sample[..i]
        invariant State() == old(State()).(members := members)
      {
        members := members + [sample[i]];
      }
    }

    method SetGatewayStatus(status: Gateway, now: int)
      requires Valid(State())
      modifies this
      ensures State() == Step(old(State()), Call(now, SetGateway(status))) && Valid(State())
    {
      StepKeepsValid(State(), Call(now, SetGateway(status)));
      gateway := status;
      audit := [AuditRecord(GatewayAction, None, None, now)] + audit;
    }
  }
}
