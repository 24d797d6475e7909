/** The leave store: the employees and leaves tables as fields that the operations
    of the service update in place. Each changing operation is proved to do what the
    matching function of module Ledger describes, and to keep Ledger.Valid. */
module Crud {
  import opened Results
  import opened Dates
  import opened Models
  import opened Ledger

  /** The balance answer: the employee's id and stored balance. */
  datatype LeaveBalance = LeaveBalance(employeeId: int, balance: int)

  /** The statistics answer: table sizes and the number of leaves per status. */
  datatype Statistics = Statistics(
    totalEmployees: nat,
    totalLeaves: nat,
    pendingLeaves: nat,
    approvedLeaves: nat,
    rejectedLeaves: nat)

  /** A row of the HR leave listing: a leave with its owner's display fields. */
  datatype LeaveRow = LeaveRow(
    id: int,
    employeeId: int,
    employeeName: string,
    employeeEmail: string,
    employeeDepartment: string,
    startDate: int,
    endDate: int,
    days: int,
    status: string)

  function JoinRow(l: Leave, e: Employee): LeaveRow {
    LeaveRow(l.id, l.employeeId, e.name, e.email, e.department, l.startDate, l.endDate, l.days, l.status)
  }

  /** `row` is leave `l` joined with a stored employee that owns it. */
  ghost predicate JoinedWithOwner(row: LeaveRow, l: Leave, employees: seq<Employee>) {
    exists e :: e in employees && e.id == l.employeeId && row == JoinRow(l, e)
  }

  class LeaveStore {
    var employees: seq<Employee>
    var leaves: seq<Leave>

    ghost predicate Valid()
      reads this
    {
      Ledger.Valid(State())
    }

    function State(): Tables
      reads this
    {
      Tables(employees, leaves)
    }

    constructor ()
      ensures Valid() && employees == [] && leaves == []
    {
      employees, leaves := [], [];
    }

    /** create_employee: insert one row with the default balance (refused for a taken email). */
    method CreateEmployee(c: EmployeeCreate) returns (r: Result<Employee>)
      requires Valid()
      modifies this
      ensures Valid()
      ensures Step(r, State()) == Ledger.CreateEmployee(old(State()), c)
    {
      if exists e :: e in employees && e.email == c.email {
        return Err(EmailTaken);
      }
      var e := NewEmployee(NextEmployeeId(employees), c);
      employees := employees + [e];
      r := Ok(e);
      CreateEmployeePreservesValid(old(State()), c);
    }

    /** apply_leave: reject in the fixed order, otherwise append one pending leave. */
    method ApplyLeave(req: LeaveCreate) returns (r: Result<Leave>)
      requires Valid()
      modifies this
      ensures Valid()
      ensures Step(r, State()) == Ledger.ApplyLeave(old(State()), req)
    {
      var found := FindEmployee(employees, req.employeeId);
      if found.None? {
        return Err(NotFound);
      }
      var emp := employees[found.value];
      if req.startDate < emp.joiningDate {
        return Err(BeforeJoining);
      }
      var days := BusinessDaysCount(req.startDate, req.endDate);
      if days > emp.leaveBalance {
        return Err(Insufficient);
      }
      if ActiveOverlapExists(leaves, req) {
        return Err(Overlap);
      }
      var leave := NewLeave(NextLeaveId(leaves), req, days);
      leaves := leaves + [leave];
      r := Ok(leave);
      ApplyLeavePreservesValid(old(State()), req);
    }

    /** approve_leave: debit the owner by the leave's days and mark it approved. */
    method ApproveLeave(leaveId: int) returns (r: Result<()>)
      requires Valid()
      modifies this
      ensures Valid()
      ensures Step(r, State()) == Ledger.ApproveLeave(old(State()), leaveId)
    {
      var found := FindLeave(leaves, leaveId);
      if found.None? {
        return Err(NotFound);
      }
      var k := found.value;
      var leave := leaves[k];
      if leave.status != StatusPending {
        return Err(AlreadyProcessed);
      }
      assert leave in leaves;
      var i := FindEmployee(employees, leave.employeeId).value;
      ghost var before := State();
      ApproveLeaveAt(before, leaveId, k, i);
      employees := DebitBalance(employees, i, leave.days);
      leaves := SetStatus(leaves, k, StatusApproved);
      r := Ok(());
      ApproveLeavePreservesValid(before, leaveId);
    }

    /** reject_leave: mark a pending leave rejected; no balance changes. */
    method RejectLeave(leaveId: int) returns (r: Result<()>)
      requires Valid()
      modifies this
      ensures Valid()
      ensures Step(r, State()) == Ledger.RejectLeave(old(State()), leaveId)
    {
      var found := FindLeave(leaves, leaveId);
      if found.None? {
        return Err(NotFound);
      }
      var k := found.value;
      if leaves[k].status != StatusPending {
        return Err(AlreadyProcessed);
      }
      leaves := SetStatus(leaves, k, StatusRejected);
      r := Ok(());
      RejectLeavePreservesValid(old(State()), leaveId);
    }

    /** get_leave_balance: the stored balance of the employee, or NotFound. */
    function GetLeaveBalance(employeeId: int): (r: Result<LeaveBalance>)
      reads this
      ensures r.Err? <==> !HasEmployee(employees, employeeId)
      ensures r.Err? ==> r.error == NotFound
      ensures r.Ok? ==>
        r.value.employeeId == employeeId
        && exists e :: e in employees && e.id == employeeId && e.leaveBalance == r.value.balance
    {
      match FindEmployee(employees, employeeId)
      case None => Err(NotFound)
      case Some(i) => Ok(LeaveBalance(employees[i].id, employees[i].leaveBalance))
    }

    /** get_system_statistics: table sizes and per-status counts, which add up. */
    function GetSystemStatistics(): (st: Statistics)
      reads this
      requires Valid()
      ensures st.totalEmployees == |employees| && st.totalLeaves == |leaves|
      ensures st.pendingLeaves + st.approvedLeaves + st.rejectedLeaves == st.totalLeaves
      ensures st.pendingLeaves == 0 <==> forall l :: l in leaves ==> l.status != StatusPending
      ensures st.pendingLeaves == CountStatus(leaves, StatusPending)
      ensures st.approvedLeaves == CountStatus(leaves, StatusApproved)
      ensures st.rejectedLeaves == CountStatus(leaves, StatusRejected)
    {
      StatusCountsPartition(leaves);
      Statistics(|employees|, |leaves|, CountStatus(leaves, StatusPending),
                 CountStatus(leaves, StatusApproved), CountStatus(leaves, StatusRejected))
    }

    /** get_employee_leaves: walk the leaves table and collect this employee's rows. */
    method GetEmployeeLeaves(employeeId: int) returns (result: seq<Leave>)
      ensures result == LeavesOf(leaves, employeeId)
    {
      var table := leaves;
      result := [];
      var k := 0;
      while k < |table|
        invariant 0 <= k <= |table|
        invariant result == LeavesOf(table[..k], employeeId)
      {
        LeavesOfSnoc(table, k, employeeId);
        if table[k].employeeId == employeeId {
          result := result + [table[k]];
        }
        k := k + 1;
      }
      assert table[..k] == table;
    }

    /** get_all_leaves: every leave, in store order, joined with its owner's display fields. */
    method GetAllLeaves() returns (rows: seq<LeaveRow>)
      requires Valid()
      ensures |rows| == |leaves|
      ensures forall k :: 0 <= k < |leaves| ==> JoinedWithOwner(rows[k], leaves[k], employees)
    {
      var table, staff := leaves, employees;
      rows := [];
      var k := 0;
      while k < |table|
        invariant 0 <= k <= |table| && |rows| == k
        invariant forall j :: 0 <= j < k ==> JoinedWithOwner(rows[j], table[j], staff)
      {
        var leave := table[k];
        assert leave in table;
        var owner := staff[FindEmployee(staff, leave.employeeId).value];
        assert JoinedWithOwner(JoinRow(leave, owner), leave, staff);
        rows := rows + [JoinRow(leave, owner)];
        k := k + 1;
      }
    }
  }
}
