/** Worked examples of the leave flow, played against the store's contracts. */
module Scenarios {
  import opened Results
  import opened Dates
  import opened Models
  import opened Ledger
  import opened Crud

  /** An employee who joined on 2024-01-01 takes Monday 3 to Friday 7 June 2024 (five
      business days), HR approves, and a request for 5 to 10 June then clashes with the
      approved leave; approving the first leave a second time fails. */
  method ScenarioJune2024() returns (balance: Result<LeaveBalance>, again: Result<Leave>, twice: Result<()>)
    ensures balance == Ok(LeaveBalance(1, 15))
    ensures again == Err(Overlap)
    ensures twice == Err(AlreadyProcessed)
  {
    var store := new LeaveStore();
    var asha := EmployeeCreate("Asha", "asha@company.com", "Engineering", 738886);
    var created := store.CreateEmployee(asha);
    assert store.employees == [Employee(1, asha.name, asha.email, asha.department, asha.joiningDate, 20)];
    assert store.leaves == [];
    BusinessDaysJune();
    var applied := store.ApplyLeave(LeaveCreate(1, 739040, 739044));
    assert store.leaves == [Leave(1, 1, 739040, 739044, StatusPending, 5)];
    var approved := store.ApproveLeave(1);
    assert store.leaves == [Leave(1, 1, 739040, 739044, StatusApproved, 5)];
    assert store.employees == [Employee(1, asha.name, asha.email, asha.department, asha.joiningDate, 15)];
    balance := store.GetLeaveBalance(1);
    again := store.ApplyLeave(LeaveCreate(1, 739042, 739047));
    twice := store.ApproveLeave(1);
  }

  lemma BusinessDaysJune()
    ensures BusinessDays(739040, 739044) == 5
    ensures BusinessDays(739042, 739047) == 4
  {
    AllWeekdaysCount(739040, 739044);
  }

  /** Two three-week requests each pass the balance check, because a pending leave
      does not reserve balance; approving both (approval does not check the balance
      again) takes the balance of 20 down to -10. */
  method ScenarioDoubleBooking() returns (balance: Result<LeaveBalance>)
    ensures balance == Ok(LeaveBalance(1, -10))
  {
    var store := new LeaveStore();
    var created := store.CreateEmployee(RaviCreate);
    assert store.employees == [Ravi(20)];
    WholeWeeks(739040, 3);
    WholeWeeks(739061, 3);
    var first := store.ApplyLeave(LeaveCreate(1, 739040, 739060));
    assert store.leaves == [Leave(1, 1, 739040, 739060, StatusPending, 15)];
    assert !ActiveOverlapExists(store.leaves, LeaveCreate(1, 739061, 739081));
    var second := store.ApplyLeave(LeaveCreate(1, 739061, 739081));
    assert store.State() == Tables([Ravi(20)], [ThreeWeeks(1, 739040, StatusPending), ThreeWeeks(2, 739061, StatusPending)]);
    FirstApproval();
    var approvedFirst := store.ApproveLeave(1);
    SecondApproval();
    var approvedSecond := store.ApproveLeave(2);
    assert store.employees == [Ravi(-10)];
    balance := store.GetLeaveBalance(1);
  }

  const RaviCreate := EmployeeCreate("Ravi", "ravi@company.com", "Sales", 738886)

  function Ravi(balance: int): Employee {
    Employee(1, RaviCreate.name, RaviCreate.email, RaviCreate.department, RaviCreate.joiningDate, balance)
  }

  /** A leave of Ravi's over the 21 days from `start`, which hold 15 business days. */
  function ThreeWeeks(id: int, start: int, status: string): Leave {
    Leave(id, 1, start, start + 20, status, 15)
  }

  lemma FirstApproval()
    ensures var t := Tables([Ravi(20)], [ThreeWeeks(1, 739040, StatusPending), ThreeWeeks(2, 739061, StatusPending)]);
      Valid(t) && Ledger.ApproveLeave(t, 1)
        == Step(Ok(()), Tables([Ravi(5)], [ThreeWeeks(1, 739040, StatusApproved), ThreeWeeks(2, 739061, StatusPending)]))
  {
    WholeWeeks(739040, 3);
    WholeWeeks(739061, 3);
    assert FindEmployee([Ravi(20)], 1) == Some(0);
  }

  lemma SecondApproval()
    ensures var t := Tables([Ravi(5)], [ThreeWeeks(1, 739040, StatusApproved), ThreeWeeks(2, 739061, StatusPending)]);
      Valid(t) && Ledger.ApproveLeave(t, 2)
        == Step(Ok(()), Tables([Ravi(-10)], [ThreeWeeks(1, 739040, StatusApproved), ThreeWeeks(2, 739061, StatusApproved)]))
  {
    WholeWeeks(739040, 3);
    WholeWeeks(739061, 3);
    assert FindEmployee([Ravi(5)], 1) == Some(0);
  }
}
