# Leave management core, modelled in Dafny

This project models the core of a small leave-management service. The service has
two tables. `employees` holds each employee's joining date and leave balance,
which starts at 20 days. `leaves` holds leave requests, each an inclusive date
range with the number of business days it was counted at and a status of
`pending`, `approved` or `rejected`.

- An employee applies for leave. The request is refused in a fixed order:
  1. the employee is unknown (404);
  2. the leave starts before the joining date (400);
  3. there are more business days than the balance (400);
  4. it overlaps a pending or approved leave of the same employee (400).

  Otherwise a pending row is added.
- HR approves or rejects a pending leave. Approval debits the owner by exactly the
  stored day count, with no second balance check. Rejection changes only the status.
- The access layer turns login credentials into token claims, and token claims back
  into a role and an identity, which two role gates then check.

Layout:

- `results.dfy`: the error values the service reports and their HTTP status codes.
- `dates.dfy`: dates as day ordinals (ordinal 1 is a Monday). It holds the
  loop of `business_days_count` as the method `Dates.BusinessDaysCount`, proved
  against a recursive count and against the cardinality of the set of weekdays.
- `models.dfy`: the two row types, the column defaults and the table invariants
  (unique keys and emails, leaves referencing employees, known statuses, stored day
  counts, no overlapping active leaves).
- `ledger.dfy`: each operation as a function from the tables before the call to a
  result and the tables after it. It also holds the invariant-preservation proofs
  and the properties of the operations.
- `crud.dfy`: the store as a class whose two `seq` fields the operations update in
  place, as the session's rows are. Each changing method is proved to produce
  exactly the step that the matching `Ledger` function describes, and to keep the
  invariant. The loops of `get_employee_leaves` and `get_all_leaves` are methods
  with loop invariants. Each changing method takes the same branches as its
  `Ledger` function, on the fields instead of on values; the method's
  postcondition equates the two, and the properties are proved once, about the
  function.
- `decimal.dfy`: `str()` and `int()` of integer ids, as used for a token's subject.
- `auth.dfy`: the login checks, the token claims, and role resolution.
- `scenarios.dfy`: two worked flows, proved against the store's contracts. The
  second shows that two pending requests can together exceed the balance, and that
  approving both drives the balance negative. The model states this behaviour and
  does not claim that balances stay non-negative.

The default lifetime in `create_access_token` is 15 minutes
(`auth.py` line 30). Both login endpoints pass the 30-minute
`ACCESS_TOKEN_EXPIRE_MINUTES` explicitly. The model follows the code:
`DefaultTokenLifetime` is 900 seconds and `AccessTokenLifetime` is 1800 seconds.

## Model

| member | source | states |
|---|---|---|
| Results.StatusCode | crud.py:24-38 | every error maps to a 4xx/5xx code; 404 exactly for a missing row, 400 exactly for the four request-validation refusals |
| Dates.Weekday | crud.py:10 | the weekday index is 0..6 and is Monday (0) exactly on ordinals congruent to 1 mod 7 |
| Dates.BusinessDaysCount | crud.py:6-13 | the day-by-day loop returns the number of Monday-to-Friday days in the inclusive range |
| Dates.BusinessDaysIsCardinality | crud.py:6-13 | that count equals the size of the set of weekdays between the two dates |
| Dates.BusinessDaysBounds | crud.py:6-13 | an empty range (end before start) counts 0; otherwise the count is at most the range length |
| Dates.BusinessDaysSplit | crud.py:6-13 | counting a range equals counting its two halves |
| Dates.AllWeekdaysCount | crud.py:10-11 | a range of weekdays only counts every day |
| Dates.FullWeek | crud.py:10-11 | any 7 consecutive days hold exactly 5 business days |
| Dates.WholeWeeks | crud.py:6-13 | k whole weeks hold 5k business days wherever they start |
| Decimal.ParseDigits | auth.py:46 | a parsed value comes only from a non-empty all-digit string |
| Decimal.ParseInt | auth.py:46 | int() of a subject succeeds exactly on an optional minus sign followed by a non-empty run of digits; the result is never positive after a minus sign and never negative without one |
| Decimal.ParseShowNat | auth.py:46 | reading back the digits of a natural number gives that number |
| Decimal.ParseShowInt | auth.py:46 | `int(str(i)) == i` for every integer, so a subject written at login reads back as the same id |
| Ledger.FindEmployee | crud.py:23 | finds the first employee with the id; None exactly when no employee has it |
| Ledger.FindLeave | crud.py:47 | finds the first leave with the id; None exactly when no leave has it |
| Ledger.NextEmployeeId | models.py:7 | a new employee key is positive, above every key in use, and either 1 or one past an existing key |
| Ledger.NextLeaveId | models.py:17 | a new leave key is positive, above every key in use, and either 1 or one past an existing key |
| Ledger.CreateEmployee | crud.py:15-20 | refused with EmailTaken exactly when the email is in use, changing nothing; otherwise appends a row with the given fields, a fresh id and balance 20 |
| Ledger.ApplyLeave | crud.py:22-44 | the four refusals, each exactly when its condition holds and every earlier check passed, changing nothing; otherwise appends one pending leave with a fresh id and its business-day count |
| Ledger.ApproveLeave | crud.py:46-55 | only NotFound or AlreadyProcessed can be refused, and a refusal changes nothing |
| Ledger.RejectLeave | crud.py:57-64 | only NotFound or AlreadyProcessed can be refused, and a refusal changes nothing |
| Ledger.CountStatus | crud.py:75-77 | the per-status count is at most the table size and is 0 exactly when no leave has that status |
| Ledger.CountStatusIsCardinality | crud.py:75-77 | the per-status count equals the number of positions in the leaves table whose status column holds that status |
| Ledger.LeavesOf | crud.py:109 | the filtered leaves are exactly the leaves of the table that belong to the employee |
| Ledger.CreateEmployeePreservesValid | crud.py:15-20 | creating an employee keeps every table invariant |
| Ledger.ApplyLeavePreservesValid | crud.py:22-44 | applying for leave keeps every table invariant, including no overlap among active leaves |
| Ledger.DecisionKeepsValid | crud.py:53-54 | a change of balances and statuses alone (statuses staying known, none reactivated) keeps every invariant |
| Ledger.DecisionKeepsKeys | crud.py:53-54 | such a change keeps ids and emails unique |
| Ledger.DecisionKeepsReferences | crud.py:53-54 | such a change keeps every leave pointing at a stored employee, starting no earlier than that employee joined, with its stored day count unchanged |
| Ledger.DecisionKeepsNoOverlap | crud.py:53-54 | such a change keeps active leaves of one employee disjoint |
| Ledger.ApproveLeavePreservesValid | crud.py:46-55 | approving keeps every table invariant |
| Ledger.RejectLeavePreservesValid | crud.py:57-64 | rejecting keeps every table invariant |
| Ledger.ApproveLeaveOutcome | crud.py:46-55 | 404 exactly when no leave has the id, 400 exactly when it is not pending, success exactly when it is pending; on success the owner's balance decreases by exactly the leave's days, the leave becomes approved, and nothing else changes |
| Ledger.OnlyLeaveWithId | crud.py:47 | with unique keys, the leave found is the only one with that id |
| Ledger.DebitIsApproval | crud.py:52-54 | debiting the owner's row and approving the leave's row changes only those two cells |
| Ledger.RejectLeaveOutcome | crud.py:57-64 | the same 404 and 400 cases as approval; on success only that leave's status changes, to rejected, and no balance moves |
| Ledger.ApprovalIsFinal | crud.py:50-51 | after an approval, approving or rejecting the same leave again is refused as already processed |
| Ledger.RejectionIsFinal | crud.py:61-62 | after a rejection, approving or rejecting the same leave again is refused as already processed |
| Ledger.StatusCountsPartition | crud.py:72-85 | with known statuses, the pending, approved and rejected counts add up to the number of leaves |
| Ledger.LeavesOfAppend | crud.py:109 | filtering a concatenation is concatenating the filtered parts |
| Ledger.LeavesOfSnoc | crud.py:111-119 | one more row extends the filtered result by that row exactly when it belongs to the employee |
| Crud.LeaveStore.constructor | models.py:5-24 | a fresh store has empty tables and satisfies the invariant |
| Crud.LeaveStore.CreateEmployee | crud.py:15-20 | the new tables and result are those of Ledger.CreateEmployee, and the invariant holds |
| Crud.LeaveStore.ApplyLeave | crud.py:22-44 | the new tables and result are those of Ledger.ApplyLeave, and the invariant holds |
| Crud.LeaveStore.ApproveLeave | crud.py:46-55 | the new tables and result are those of Ledger.ApproveLeave, and the invariant holds |
| Crud.LeaveStore.RejectLeave | crud.py:57-64 | the new tables and result are those of Ledger.RejectLeave, and the invariant holds |
| Crud.LeaveStore.GetLeaveBalance | crud.py:66-70 | 404 exactly when no employee has the id; otherwise the id and that employee's stored balance |
| Crud.LeaveStore.GetSystemStatistics | crud.py:72-85 | the totals are the table sizes; each status figure is the count of leaves with that status (pending, approved, rejected respectively); the three add up to the leave total; the pending figure is 0 exactly when nothing is pending |
| Crud.LeaveStore.GetEmployeeLeaves | crud.py:108-120 | the loop collects exactly the employee's leaves, in table order |
| Crud.LeaveStore.GetAllLeaves | crud.py:91-106 | one row per leave, in table order, each carrying the leave's fields and its owner's name, email and department |
| Auth.AuthenticateHr | auth.py:90-95 | HR logs in exactly with the one hardcoded credential pair and gets id 999, "HR Admin", role hr |
| Auth.AuthenticateEmployee | auth.py:82-88 | succeeds exactly when some stored employee matches both email and id, and returns such an employee |
| Auth.CreateAccessToken | auth.py:25-33 | the claims are the input's plus `exp`; `exp` is now plus the delta, or now plus 15 minutes when the delta is missing or zero |
| Auth.VerifyToken | auth.py:35-52 | 401 for an undecodable token or a missing or null subject; a numeric subject succeeds with that number; a text subject succeeds with its int() value when it is integer text and fails with the uncaught conversion error otherwise; on success the role is the role claim, or null when absent |
| Auth.GetCurrentUser | auth.py:54-70 | an employee role resolves exactly when the id is stored (else 404); an HR role exactly when the id is 999 (else 404); any other role is 403 |
| Auth.RequireEmployee | auth.py:72-75 | passes the user through exactly when the role is employee; otherwise 403 |
| Auth.RequireHr | auth.py:77-80 | passes the user through exactly when the role is hr; otherwise 403 |
| Auth.ResolvedUserPassesOneGate | auth.py:54-80 | every resolved user passes exactly one of the two role gates |
| Auth.EmployeeLoginResolves | main.py:21-31 | an employee's login token expires 30 minutes on, reads back to the same stored employee, passes the employee gate and fails the HR gate |
| Auth.HrLoginResolves | main.py:44-54 | the HR login token reads back to the HR user, passes the HR gate and fails the employee gate |
| Scenarios.BusinessDaysJune | crud.py:6-13 | 3 to 7 June 2024 holds 5 business days and 5 to 10 June holds 4 |
| Scenarios.ScenarioJune2024 | crud.py:22-55 | after a 5-day approved leave the balance is 15, an overlapping request is refused, and a second approval is refused |
| Scenarios.FirstApproval | crud.py:46-55 | approving the first of two pending 15-day leaves takes the balance from 20 to 5 |
| Scenarios.SecondApproval | crud.py:46-55 | approving the second takes the balance from 5 to -10, because approval does not check the balance |
| Scenarios.ScenarioDoubleBooking | crud.py:29-53 | two requests that each fit the balance, approved one after the other, leave a balance of -10 |

## Left out

- Database mechanics: sessions, commits, refreshes, the ORM's query builder and joins. Each query becomes a search of a `seq`, in table order.
- Concurrency: two requests running at once (for example two approvals of the same leave) are not modelled. Each operation is one atomic step.
- Dates are unbounded day ordinals. Python's `OverflowError` when the counting loop steps past `date.max` is not modelled.
- New keys are one past the largest key in use. SQLite's random choice of key once the largest possible key is taken is not modelled.
- A duplicate email is the `EmailTaken` error. In the service it is an uncaught database integrity error, and the model records only that the insert fails and changes nothing.
- Token signing, decoding and expiry checking are not modelled, and neither is the secret key: a token is the claims map it carries. A failed decode, expired tokens included, is the `None` input of `Auth.VerifyToken`.
- The current time is the parameter `now`, in seconds, and a `timedelta` is a whole number of seconds.
- Auth.VerifyToken: only string, integer and null subjects are modelled. Other JSON shapes (floats, booleans, lists) are not.
- Decimal.ParseInt: it accepts an optional minus sign followed by decimal digits. Python's `int()` also accepts surrounding whitespace, a leading `+` and digit-separating underscores; those subjects never occur in tokens this service issues.
- Password hashing (`verify_password`, `get_password_hash`) is not used by any modelled operation and is left out.
- `get_all_employees` (crud.py lines 87-89) returns the employees table unchanged; it is the store's `employees` field.
- Routing, request parsing and the checks in the endpoint handlers are not part of this model. This includes `EmailStr` validation and the rule that employees may act only on their own records.
- The JSON shapes of responses are not modelled. The records hold the same fields.
