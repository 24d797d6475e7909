/** The two tables of the service: employees and their leave requests, with the
    column defaults and the key constraints the schema declares. */
module Models {
  import opened Dates

  const DefaultLeaveBalance: int := 20

  /** The values the status column takes; the column itself is free text. */
  const StatusPending: string := "pending"
  const StatusApproved: string := "approved"
  const StatusRejected: string := "rejected"

  /** A row of `employees`. Dates are day ordinals. */
  datatype Employee = Employee(
    id: int,
    name: string,
    email: string,
    department: string,
    joiningDate: int,
    leaveBalance: int)

  /** A row of `leaves`: an inclusive date range and the business days it was counted at. */
  datatype Leave = Leave(
    id: int,
    employeeId: int,
    startDate: int,
    endDate: int,
    status: string,
    days: int)

  /** The fields a caller supplies to create an employee. */
  datatype EmployeeCreate = EmployeeCreate(name: string, email: string, department: string, joiningDate: int)

  /** The fields a caller supplies to request leave. */
  datatype LeaveCreate = LeaveCreate(employeeId: int, startDate: int, endDate: int)

  /** A new employee row: the supplied fields, the given key and the default balance. */
  function NewEmployee(id: int, c: EmployeeCreate): Employee {
    Employee(id, c.name, c.email, c.department, c.joiningDate, DefaultLeaveBalance)
  }

  /** A new leave row: the requested range, the given key and day count, status pending. */
  function NewLeave(id: int, req: LeaveCreate, days: int): Leave {
    Leave(id, req.employeeId, req.startDate, req.endDate, StatusPending, days)
  }

  /** Pending and approved leaves block other requests; rejected ones do not. */
  predicate IsActive(l: Leave) {
    l.status == StatusPending || l.status == StatusApproved
  }

  /** Inclusive overlap of two date ranges. */
  predicate RangesOverlap(start1: int, end1: int, start2: int, end2: int) {
    start1 <= end2 && end1 >= start2
  }

  predicate HasEmployee(employees: seq<Employee>, id: int) {
    exists e :: e in employees && e.id == id
  }

  /** Primary key of employees. */
  ghost predicate UniqueEmployeeIds(employees: seq<Employee>) {
    forall i, j :: 0 <= i < j < |employees| ==> employees[i].id != employees[j].id
  }

  /** Unique constraint on employees.email. */
  ghost predicate UniqueEmails(employees: seq<Employee>) {
    forall i, j :: 0 <= i < j < |employees| ==> employees[i].email != employees[j].email
  }

  /** Primary key of leaves. */
  ghost predicate UniqueLeaveIds(leaves: seq<Leave>) {
    forall i, j :: 0 <= i < j < |leaves| ==> leaves[i].id != leaves[j].id
  }

  /** Foreign key leaves.employee_id -> employees.id. */
  ghost predicate LeavesReferenceEmployees(employees: seq<Employee>, leaves: seq<Leave>) {
    forall l :: l in leaves ==> HasEmployee(employees, l.employeeId)
  }

  /** Only the default and the two decisions are ever written to the status column. */
  ghost predicate KnownStatuses(leaves: seq<Leave>) {
    forall l :: l in leaves ==> l.status in {StatusPending, StatusApproved, StatusRejected}
  }

  /** No leave starts before its employee joined. */
  ghost predicate LeavesAfterJoining(employees: seq<Employee>, leaves: seq<Leave>) {
    forall l, e :: l in leaves && e in employees && e.id == l.employeeId ==> e.joiningDate <= l.startDate
  }

  /** Every stored day count is the business-day count of the stored range. */
  ghost predicate DaysCounted(leaves: seq<Leave>) {
    forall l :: l in leaves ==> l.days == BusinessDays(l.startDate, l.endDate)
  }

  /** No two active leaves of one employee overlap. */
  ghost predicate NoActiveOverlap(leaves: seq<Leave>) {
    forall i, j :: 0 <= i < j < |leaves| && leaves[i].employeeId == leaves[j].employeeId
      && IsActive(leaves[i]) && IsActive(leaves[j])
      ==> !RangesOverlap(leaves[i].startDate, leaves[i].endDate, leaves[j].startDate, leaves[j].endDate)
  }
}
