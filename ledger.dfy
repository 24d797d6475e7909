/** The leave ledger as values: each operation of the service maps the two tables
    before the call to a result and the two tables after it. The store class in
    module Crud is proved to follow these functions; the invariants and the
    properties of the operations are proved here. */
module Ledger {
  import opened Results
  import opened Dates
  import opened Models

  /** The contents of the two tables. */
  datatype Tables = Tables(employees: seq<Employee>, leaves: seq<Leave>)

  /** What an operation returns, together with the tables it leaves behind. */
  datatype Step<T> = Step(result: Result<T>, after: Tables)

  /** Everything the schema and the operations keep true of the tables. */
  ghost predicate Valid(t: Tables) {
    && UniqueEmployeeIds(t.employees)
    && UniqueEmails(t.employees)
    && UniqueLeaveIds(t.leaves)
    && LeavesReferenceEmployees(t.employees, t.leaves)
    && KnownStatuses(t.leaves)
    && LeavesAfterJoining(t.employees, t.leaves)
    && DaysCounted(t.leaves)
    && NoActiveOverlap(t.leaves)
  }

  /** Position of the first employee with this id, as `query(...).filter(id == ...).first()`. */
  function FindEmployee(employees: seq<Employee>, id: int): (r: Option<nat>)
    ensures r.Some? ==> r.value < |employees| && employees[r.value].id == id
    ensures r.Some? ==> forall j :: 0 <= j < r.value ==> employees[j].id != id
    ensures r.None? <==> !HasEmployee(employees, id)
  {
    if |employees| == 0 then None
    else if employees[0].id == id then Some(0)
    else match FindEmployee(employees[1..], id)
      case None => None
      case Some(k) => Some(k + 1)
  }

  /** Position of the first leave with this id. */
  function FindLeave(leaves: seq<Leave>, id: int): (r: Option<nat>)
    ensures r.Some? ==> r.value < |leaves| && leaves[r.value].id == id
    ensures r.Some? ==> forall j :: 0 <= j < r.value ==> leaves[j].id != id
    ensures r.None? <==> forall l :: l in leaves ==> l.id != id
  {
    if |leaves| == 0 then None
    else if leaves[0].id == id then Some(0)
    else match FindLeave(leaves[1..], id)
      case None => None
      case Some(k) => Some(k + 1)
  }

  /** The key the database gives a new employee row: one past the largest in use, 1 in an empty table. */
  function NextEmployeeId(employees: seq<Employee>): (r: int)
    ensures r >= 1
    ensures forall e :: e in employees ==> e.id < r
    ensures r == 1 || exists e :: e in employees && e.id + 1 == r
  {
    if |employees| == 0 then 1
    else
      var rest := NextEmployeeId(employees[1..]);
      if employees[0].id + 1 > rest then employees[0].id + 1 else rest
  }

  /** The key the database gives a new leave row. */
  function NextLeaveId(leaves: seq<Leave>): (r: int)
    ensures r >= 1
    ensures forall l :: l in leaves ==> l.id < r
    ensures r == 1 || exists l :: l in leaves && l.id + 1 == r
  {
    if |leaves| == 0 then 1
    else
      var rest := NextLeaveId(leaves[1..]);
      if leaves[0].id + 1 > rest then leaves[0].id + 1 else rest
  }

  /** Some pending or approved leave of the same employee overlaps the requested range. */
  predicate ActiveOverlapExists(leaves: seq<Leave>, req: LeaveCreate) {
    exists l :: l in leaves && l.employeeId == req.employeeId && IsActive(l)
      && RangesOverlap(l.startDate, l.endDate, req.startDate, req.endDate)
  }

  /** create_employee: insert a row with the default balance; the unique email
      constraint refuses a second employee with the same address. */
  function CreateEmployee(t: Tables, c: EmployeeCreate): (s: Step<Employee>)
    ensures s.result == Err(EmailTaken) <==> exists e :: e in t.employees && e.email == c.email
    ensures s.result.Err? ==> s.result.error == EmailTaken && s.after == t
    ensures s.result.Ok? ==> s.after == Tables(t.employees + [s.result.value], t.leaves)
    ensures s.result.Ok? ==> s.result.value.leaveBalance == DefaultLeaveBalance
    ensures s.result.Ok? ==> !HasEmployee(t.employees, s.result.value.id)
    ensures s.result.Ok? ==> var e := s.result.value;
      e.name == c.name && e.email == c.email && e.department == c.department && e.joiningDate == c.joiningDate
  {
    if exists e :: e in t.employees && e.email == c.email then Step(Err(EmailTaken), t)
    else
      var e := NewEmployee(NextEmployeeId(t.employees), c);
      Step(Ok(e), Tables(t.employees + [e], t.leaves))
  }

  /** apply_leave: the four checks in their fixed order, then one new pending row. */
  function ApplyLeave(t: Tables, req: LeaveCreate): (s: Step<Leave>)
    requires Valid(t)
    ensures s.result.Err? ==> s.after == t
    ensures s.result.Ok? ==> s.after == Tables(t.employees, t.leaves + [s.result.value])
    ensures s.result.Ok? || s.result.error in {NotFound, BeforeJoining, Insufficient, Overlap}
    ensures s.result == Err(NotFound) <==> !HasEmployee(t.employees, req.employeeId)
    ensures forall e :: e in t.employees && e.id == req.employeeId ==>
      var days := BusinessDays(req.startDate, req.endDate);
      && (s.result == Err(BeforeJoining) <==> req.startDate < e.joiningDate)
      && (s.result == Err(Insufficient) <==> e.joiningDate <= req.startDate && days > e.leaveBalance)
      && (s.result == Err(Overlap) <==>
            e.joiningDate <= req.startDate && days <= e.leaveBalance && ActiveOverlapExists(t.leaves, req))
    ensures s.result.Ok? ==> var l := s.result.value;
      && l.employeeId == req.employeeId && l.startDate == req.startDate && l.endDate == req.endDate
      && l.status == StatusPending && l.days == BusinessDays(req.startDate, req.endDate)
      && forall old_l :: old_l in t.leaves ==> old_l.id != l.id
  {
    match FindEmployee(t.employees, req.employeeId)
    case None => Step(Err(NotFound), t)
    case Some(i) =>
      var emp := t.employees[i];
      if req.startDate < emp.joiningDate then Step(Err(BeforeJoining), t)
      else
        var days := BusinessDays(req.startDate, req.endDate);
        if days > emp.leaveBalance then Step(Err(Insufficient), t)
        else if ActiveOverlapExists(t.leaves, req) then Step(Err(Overlap), t)
        else
          var l := NewLeave(NextLeaveId(t.leaves), req, days);
          Step(Ok(l), Tables(t.employees, t.leaves + [l]))
  }

  /** The employees table with the balance of row i lowered by `days`. */
  function DebitBalance(employees: seq<Employee>, i: nat, days: int): seq<Employee>
    requires i < |employees|
  {
    employees[i := employees[i].(leaveBalance := employees[i].leaveBalance - days)]
  }

  /** The leaves table with the status of row k replaced. */
  function SetStatus(leaves: seq<Leave>, k: nat, status: string): seq<Leave>
    requires k < |leaves|
  {
    leaves[k := leaves[k].(status := status)]
  }

  /** The tables after approving leave `l`: its owner's balance drops by exactly
      `l.days`, its status becomes approved, and no other row changes. */
  ghost predicate ApprovalEffect(before: Tables, after: Tables, l: Leave) {
    && |after.employees| == |before.employees|
    && |after.leaves| == |before.leaves|
    && (forall i :: 0 <= i < |before.employees| ==>
          after.employees[i] ==
            if before.employees[i].id == l.employeeId
            then before.employees[i].(leaveBalance := before.employees[i].leaveBalance - l.days)
            else before.employees[i])
    && (forall k :: 0 <= k < |before.leaves| ==>
          after.leaves[k] ==
            if before.leaves[k].id == l.id then before.leaves[k].(status := StatusApproved) else before.leaves[k])
  }

  /** The tables after rejecting leave `l`: its status becomes rejected and nothing else changes. */
  ghost predicate RejectionEffect(before: Tables, after: Tables, l: Leave) {
    && after.employees == before.employees
    && |after.leaves| == |before.leaves|
    && (forall k :: 0 <= k < |before.leaves| ==>
          after.leaves[k] ==
            if before.leaves[k].id == l.id then before.leaves[k].(status := StatusRejected) else before.leaves[k])
  }

  /** approve_leave: 404 for an unknown leave, 400 unless pending; otherwise debit the
      owner by the stored day count (the balance is not checked again) and approve. */
  function ApproveLeave(t: Tables, leaveId: int): (s: Step<()>)
    requires Valid(t)
    ensures s.result.Err? ==> s.after == t
    ensures s.result.Ok? || s.result.error in {NotFound, AlreadyProcessed}
  {
    match FindLeave(t.leaves, leaveId)
    case None => Step(Err(NotFound), t)
    case Some(k) =>
      var l := t.leaves[k];
      if l.status != StatusPending then Step(Err(AlreadyProcessed), t)
      else
        match FindEmployee(t.employees, l.employeeId)
        case None => assert false; Step(Err(NotFound), t)
        case Some(i) =>
          Step(Ok(()), Tables(DebitBalance(t.employees, i, l.days), SetStatus(t.leaves, k, StatusApproved)))
  }

  /** The success case of approve_leave, with the positions of the leave and its owner. */
  lemma ApproveLeaveAt(t: Tables, leaveId: int, k: nat, i: nat)
    requires Valid(t)
    requires FindLeave(t.leaves, leaveId) == Some(k) && t.leaves[k].status == StatusPending
    requires FindEmployee(t.employees, t.leaves[k].employeeId) == Some(i)
    ensures ApproveLeave(t, leaveId)
      == Step(Ok(()), Tables(DebitBalance(t.employees, i, t.leaves[k].days), SetStatus(t.leaves, k, StatusApproved)))
  {
  }

  /** reject_leave: the same two checks as approval; then only the status changes. */
  function RejectLeave(t: Tables, leaveId: int): (s: Step<()>)
    ensures s.result.Err? ==> s.after == t
    ensures s.result.Ok? || s.result.error in {NotFound, AlreadyProcessed}
  {
    match FindLeave(t.leaves, leaveId)
    case None => Step(Err(NotFound), t)
    case Some(k) =>
      var l := t.leaves[k];
      if l.status != StatusPending then Step(Err(AlreadyProcessed), t)
      else Step(Ok(()), Tables(t.employees, SetStatus(t.leaves, k, StatusRejected)))
  }

  /** Number of leaves whose status column holds `status`. */
  function CountStatus(leaves: seq<Leave>, status: string): (n: nat)
    ensures n <= |leaves|
    ensures n == 0 <==> forall l :: l in leaves ==> l.status != status
  {
    if |leaves| == 0 then 0
    else (if leaves[0].status == status then 1 else 0) + CountStatus(leaves[1..], status)
  }

  /** Reference definition: the positions, from `lo` on, of leaves with this status. */
  ghost function StatusPositions(leaves: seq<Leave>, status: string, lo: nat): set<int> {
    set k | lo <= k < |leaves| && leaves[k].status == status
  }

  /** The count is the number of rows whose status column holds `status`. */
  lemma CountStatusIsCardinality(leaves: seq<Leave>, status: string)
    ensures CountStatus(leaves, status) == |set k | 0 <= k < |leaves| && leaves[k].status == status|
  {
    CountStatusFrom(leaves, status, 0);
    assert leaves[0..] == leaves;
  }

  lemma {:induction false} CountStatusFrom(leaves: seq<Leave>, status: string, lo: nat)
    requires lo <= |leaves|
    ensures CountStatus(leaves[lo..], status) == |StatusPositions(leaves, status, lo)|
    decreases |leaves| - lo
  {
    if lo == |leaves| {
      assert StatusPositions(leaves, status, lo) == {};
    } else {
      CountStatusFrom(leaves, status, lo + 1);
      assert leaves[lo..][1..] == leaves[lo + 1..];
      var rest := StatusPositions(leaves, status, lo + 1);
      assert lo !in rest;
      if leaves[lo].status == status {
        assert StatusPositions(leaves, status, lo) == {lo} + rest;
      } else {
        assert StatusPositions(leaves, status, lo) == rest;
      }
    }
  }

  /** The leaves of one employee, in store order. */
  function LeavesOf(leaves: seq<Leave>, employeeId: int): (r: seq<Leave>)
    ensures |r| <= |leaves|
    ensures forall l :: l in r <==> l in leaves && l.employeeId == employeeId
  {
    if |leaves| == 0 then []
    else if leaves[0].employeeId == employeeId then [leaves[0]] + LeavesOf(leaves[1..], employeeId)
    else LeavesOf(leaves[1..], employeeId)
  }

  // ---------------------------------------------------------------------------
  // Invariants kept by every operation

  lemma CreateEmployeePreservesValid(t: Tables, c: EmployeeCreate)
    requires Valid(t)
    ensures Valid(CreateEmployee(t, c).after)
  {
    var s := CreateEmployee(t, c);
    if s.result.Ok? {
      var e := s.result.value;
      var es := s.after.employees;
      assert es == t.employees + [e];
      forall i, j | 0 <= i < j < |es| ensures es[i].id != es[j].id && es[i].email != es[j].email {
        if j == |es| - 1 {
          assert es[i] in t.employees;
        }
      }
      assert forall l :: l in t.leaves ==> l.employeeId != e.id;
      forall l | l in t.leaves ensures HasEmployee(es, l.employeeId) {
        var w :| w in t.employees && w.id == l.employeeId;
        assert w in es;
      }
    }
  }

  lemma ApplyLeavePreservesValid(t: Tables, req: LeaveCreate)
    requires Valid(t)
    ensures Valid(ApplyLeave(t, req).after)
  {
    var s := ApplyLeave(t, req);
    if s.result.Ok? {
      var l := s.result.value;
      var ls := s.after.leaves;
      assert ls == t.leaves + [l];
      var i := FindEmployee(t.employees, req.employeeId).value;
      var emp := t.employees[i];
      forall a, b | 0 <= a < b < |ls| ensures ls[a].id != ls[b].id {
        if b == |ls| - 1 { assert ls[a] in t.leaves; }
      }
      forall a, b | 0 <= a < b < |ls| && ls[a].employeeId == ls[b].employeeId && IsActive(ls[a]) && IsActive(ls[b])
        ensures !RangesOverlap(ls[a].startDate, ls[a].endDate, ls[b].startDate, ls[b].endDate)
      {
        if b == |ls| - 1 { assert ls[a] in t.leaves; }
      }
      forall x, e | x in ls && e in t.employees && e.id == x.employeeId ensures e.joiningDate <= x.startDate {
        if x == l && x !in t.leaves {
          var j :| 0 <= j < |t.employees| && t.employees[j] == e;
          assert j == i;
        }
      }
      assert HasEmployee(t.employees, l.employeeId) by { assert emp in t.employees; }
    }
  }

  /** A decision rewrites only balance and status columns, writes a known status,
      and never turns an inactive leave active. */
  ghost predicate OnlyBalancesAndStatusesChange(t: Tables, u: Tables) {
    && |u.employees| == |t.employees|
    && |u.leaves| == |t.leaves|
    && (forall i :: 0 <= i < |t.employees| ==>
          u.employees[i] == t.employees[i].(leaveBalance := u.employees[i].leaveBalance))
    && (forall k :: 0 <= k < |t.leaves| ==> u.leaves[k] == t.leaves[k].(status := u.leaves[k].status))
    && (forall k :: 0 <= k < |t.leaves| ==> IsActive(u.leaves[k]) ==> IsActive(t.leaves[k]))
    && KnownStatuses(u.leaves)
  }

  lemma DecisionKeepsValid(t: Tables, u: Tables)
    requires Valid(t) && OnlyBalancesAndStatusesChange(t, u)
    ensures Valid(u)
  {
    DecisionKeepsKeys(t, u);
    DecisionKeepsReferences(t, u);
    DecisionKeepsNoOverlap(t, u);
  }

  lemma DecisionKeepsKeys(t: Tables, u: Tables)
    requires Valid(t) && OnlyBalancesAndStatusesChange(t, u)
    ensures UniqueEmployeeIds(u.employees) && UniqueEmails(u.employees) && UniqueLeaveIds(u.leaves)
  {
    var es, ls, es', ls' := t.employees, t.leaves, u.employees, u.leaves;
    forall i, j | 0 <= i < j < |es'| ensures es'[i].id != es'[j].id && es'[i].email != es'[j].email {
      assert es'[i].id == es[i].id && es'[j].id == es[j].id;
      assert es'[i].email == es[i].email && es'[j].email == es[j].email;
    }
    forall i, j | 0 <= i < j < |ls'| ensures ls'[i].id != ls'[j].id {
      assert ls'[i].id == ls[i].id && ls'[j].id == ls[j].id;
    }
  }

  lemma DecisionKeepsReferences(t: Tables, u: Tables)
    requires Valid(t) && OnlyBalancesAndStatusesChange(t, u)
    ensures LeavesReferenceEmployees(u.employees, u.leaves)
    ensures LeavesAfterJoining(u.employees, u.leaves)
    ensures DaysCounted(u.leaves)
  {
    var es, ls, es', ls' := t.employees, t.leaves, u.employees, u.leaves;
    forall x | x in ls' ensures HasEmployee(es', x.employeeId) && x.days == BusinessDays(x.startDate, x.endDate) {
      var k :| 0 <= k < |ls'| && ls'[k] == x;
      assert ls[k] in ls;
      var w :| w in es && w.id == x.employeeId;
      var i :| 0 <= i < |es| && es[i] == w;
      assert es'[i] in es';
    }
    forall x, e | x in ls' && e in es' && e.id == x.employeeId ensures e.joiningDate <= x.startDate {
      var k :| 0 <= k < |ls'| && ls'[k] == x;
      var i :| 0 <= i < |es'| && es'[i] == e;
      assert ls[k] in ls && es[i] in es;
    }
  }

  lemma DecisionKeepsNoOverlap(t: Tables, u: Tables)
    requires Valid(t) && OnlyBalancesAndStatusesChange(t, u)
    ensures NoActiveOverlap(u.leaves)
  {
    var ls, ls' := t.leaves, u.leaves;
    forall i, j | 0 <= i < j < |ls'| && ls'[i].employeeId == ls'[j].employeeId && IsActive(ls'[i]) && IsActive(ls'[j])
      ensures !RangesOverlap(ls'[i].startDate, ls'[i].endDate, ls'[j].startDate, ls'[j].endDate)
    {
      assert IsActive(ls[i]) && IsActive(ls[j]);
    }
  }

  lemma ApproveLeavePreservesValid(t: Tables, leaveId: int)
    requires Valid(t)
    ensures Valid(ApproveLeave(t, leaveId).after)
  {
    var s := ApproveLeave(t, leaveId);
    if s.result.Ok? {
      var l := t.leaves[FindLeave(t.leaves, leaveId).value];
      ApproveLeaveOutcome(t, leaveId);
      assert l in t.leaves;
      forall x | x in s.after.leaves ensures x.status in {StatusPending, StatusApproved, StatusRejected} {
        var k :| 0 <= k < |s.after.leaves| && s.after.leaves[k] == x;
        assert t.leaves[k] in t.leaves;
      }
      DecisionKeepsValid(t, s.after);
    }
  }

  lemma RejectLeavePreservesValid(t: Tables, leaveId: int)
    requires Valid(t)
    ensures Valid(RejectLeave(t, leaveId).after)
  {
    var s := RejectLeave(t, leaveId);
    if s.result.Ok? {
      var l := t.leaves[FindLeave(t.leaves, leaveId).value];
      RejectLeaveOutcome(t, leaveId);
      assert l in t.leaves;
      forall x | x in s.after.leaves ensures x.status in {StatusPending, StatusApproved, StatusRejected} {
        var k :| 0 <= k < |s.after.leaves| && s.after.leaves[k] == x;
        assert t.leaves[k] in t.leaves;
      }
      DecisionKeepsValid(t, s.after);
    }
  }

  // ---------------------------------------------------------------------------
  // Properties of the operations

  /** approve_leave's outcome: 404 exactly when no leave has the id, 400 exactly when
      it is no longer pending, and otherwise the owner is debited by exactly the
      leave's days and the leave approved, with no balance check and no other change. */
  lemma ApproveLeaveOutcome(t: Tables, leaveId: int)
    requires Valid(t)
    ensures var s := ApproveLeave(t, leaveId);
      && (s.result == Err(NotFound) <==> forall l :: l in t.leaves ==> l.id != leaveId)
      && (s.result == Err(AlreadyProcessed) <==>
            exists l :: l in t.leaves && l.id == leaveId && l.status != StatusPending)
      && (s.result.Ok? <==> exists l :: l in t.leaves && l.id == leaveId && l.status == StatusPending)
      && forall l :: l in t.leaves && l.id == leaveId && s.result.Ok? ==> ApprovalEffect(t, s.after, l)
  {
    var s := ApproveLeave(t, leaveId);
    match FindLeave(t.leaves, leaveId)
    case None =>
    case Some(k) =>
      OnlyLeaveWithId(t.leaves, leaveId, k);
      if s.result.Ok? {
        var i := FindEmployee(t.employees, t.leaves[k].employeeId).value;
        ApproveLeaveAt(t, leaveId, k, i);
        DebitIsApproval(t, k, i);
      }
  }

  /** With unique leave ids, the leave FindLeave points at is the only one with that id. */
  lemma OnlyLeaveWithId(leaves: seq<Leave>, leaveId: int, k: nat)
    requires UniqueLeaveIds(leaves)
    requires FindLeave(leaves, leaveId) == Some(k)
    ensures leaves[k] in leaves
    ensures forall l :: l in leaves && l.id == leaveId ==> l == leaves[k]
  {
    forall l | l in leaves && l.id == leaveId ensures l == leaves[k] {
      var j :| 0 <= j < |leaves| && leaves[j] == l;
      assert j == k;
    }
  }

  /** Debiting the owner's row and approving the leave's row is the approval effect. */
  lemma DebitIsApproval(t: Tables, k: nat, i: nat)
    requires Valid(t)
    requires k < |t.leaves| && FindEmployee(t.employees, t.leaves[k].employeeId) == Some(i)
    ensures ApprovalEffect(t, Tables(DebitBalance(t.employees, i, t.leaves[k].days),
                                     SetStatus(t.leaves, k, StatusApproved)), t.leaves[k])
  {
    forall j | 0 <= j < |t.employees| && t.employees[j].id == t.leaves[k].employeeId ensures j == i { }
  }

  /** reject_leave's outcome: the same 404 and 400 cases as approval; otherwise only
      that leave's status changes, to rejected, and no balance moves. */
  lemma RejectLeaveOutcome(t: Tables, leaveId: int)
    requires Valid(t)
    ensures var s := RejectLeave(t, leaveId);
      && (s.result == Err(NotFound) <==> forall l :: l in t.leaves ==> l.id != leaveId)
      && (s.result == Err(AlreadyProcessed) <==>
            exists l :: l in t.leaves && l.id == leaveId && l.status != StatusPending)
      && (s.result.Ok? <==> exists l :: l in t.leaves && l.id == leaveId && l.status == StatusPending)
      && forall l :: l in t.leaves && l.id == leaveId && s.result.Ok? ==> RejectionEffect(t, s.after, l)
  {
    var s := RejectLeave(t, leaveId);
    match FindLeave(t.leaves, leaveId)
    case None =>
    case Some(k) =>
      OnlyLeaveWithId(t.leaves, leaveId, k);
  }

  /** Once approved, a leave can be neither approved nor rejected again. */
  lemma ApprovalIsFinal(t: Tables, leaveId: int)
    requires Valid(t) && ApproveLeave(t, leaveId).result.Ok?
    ensures Valid(ApproveLeave(t, leaveId).after)
    ensures ApproveLeave(ApproveLeave(t, leaveId).after, leaveId).result == Err(AlreadyProcessed)
    ensures RejectLeave(ApproveLeave(t, leaveId).after, leaveId).result == Err(AlreadyProcessed)
  {
    ApproveLeavePreservesValid(t, leaveId);
    var k := FindLeave(t.leaves, leaveId).value;
    var after := ApproveLeave(t, leaveId).after;
    ApproveLeaveOutcome(t, leaveId);
    assert t.leaves[k] in t.leaves;
    assert after.leaves[k] in after.leaves;
  }

  /** Once rejected, a leave can be neither approved nor rejected again. */
  lemma RejectionIsFinal(t: Tables, leaveId: int)
    requires Valid(t) && RejectLeave(t, leaveId).result.Ok?
    ensures Valid(RejectLeave(t, leaveId).after)
    ensures ApproveLeave(RejectLeave(t, leaveId).after, leaveId).result == Err(AlreadyProcessed)
    ensures RejectLeave(RejectLeave(t, leaveId).after, leaveId).result == Err(AlreadyProcessed)
  {
    RejectLeavePreservesValid(t, leaveId);
    var k := FindLeave(t.leaves, leaveId).value;
    var after := RejectLeave(t, leaveId).after;
    RejectLeaveOutcome(t, leaveId);
    assert t.leaves[k] in t.leaves;
    assert after.leaves[k] in after.leaves;
  }

  /** With only the three known statuses in the column, the per-status counts add up to the total. */
  lemma {:induction false} StatusCountsPartition(leaves: seq<Leave>)
    requires KnownStatuses(leaves)
    ensures CountStatus(leaves, StatusPending) + CountStatus(leaves, StatusApproved)
            + CountStatus(leaves, StatusRejected) == |leaves|
  {
    if |leaves| > 0 {
      assert leaves[0] in leaves;
      assert KnownStatuses(leaves[1..]) by {
        forall l | l in leaves[1..] ensures l in leaves { }
      }
      StatusCountsPartition(leaves[1..]);
    }
  }

  /** Filtering distributes over concatenation, so the listing keeps store order:
      the rows of a prefix come before those of the rest. */
  lemma {:induction false} LeavesOfAppend(a: seq<Leave>, b: seq<Leave>, employeeId: int)
    ensures LeavesOf(a + b, employeeId) == LeavesOf(a, employeeId) + LeavesOf(b, employeeId)
  {
    if |a| > 0 {
      assert (a + b)[1..] == a[1..] + b;
      LeavesOfAppend(a[1..], b, employeeId);
    } else {
      assert a + b == b;
    }
  }

  /** One step of a left-to-right filter: extending the prefix by one row extends
      the filtered prefix by that row exactly when it belongs to the employee. */
  lemma LeavesOfSnoc(leaves: seq<Leave>, k: nat, employeeId: int)
    requires k < |leaves|
    ensures LeavesOf(leaves[..k + 1], employeeId)
      == LeavesOf(leaves[..k], employeeId) + (if leaves[k].employeeId == employeeId then [leaves[k]] else [])
  {
    assert leaves[..k + 1] == leaves[..k] + [leaves[k]];
    LeavesOfAppend(leaves[..k], [leaves[k]], employeeId);
    assert [leaves[k]][1..] == [];
  }
}
