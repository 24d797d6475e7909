/** Calendar days as integer ordinals (day 1 is Monday 0001-01-01, as with Python's
    `date.toordinal()`), and the inclusive business-day counter. */
module Dates {

  /** Monday = 0 ... Sunday = 6. */
  function Weekday(d: int): (w: int)
    ensures 0 <= w < 7
    ensures w == 0 <==> (d - 1) % 7 == 0
  {
    (d + 6) % 7
  }

  predicate IsBusinessDay(d: int) {
    Weekday(d) < 5
  }

  /** Number of business days in the inclusive range [start, end], counted from the
      front as the source's loop walks it; an empty range counts nothing. */
  function BusinessDays(start: int, end: int): nat
    decreases end - start
  {
    if start > end then 0
    else (if IsBusinessDay(start) then 1 else 0) + BusinessDays(start + 1, end)
  }

  /** Reference definition: the set of weekdays between the two dates. */
  ghost function BusinessDaySet(start: int, end: int): set<int> {
    set d | start <= d <= end && IsBusinessDay(d)
  }

  /** The walk of business_days_count: one step per calendar day from start to end. */
  method BusinessDaysCount(startDate: int, endDate: int) returns (dayCount: nat)
    ensures dayCount == BusinessDays(startDate, endDate)
  {
    dayCount := 0;
    var current := startDate;
    while current <= endDate
      invariant dayCount + BusinessDays(current, endDate) == BusinessDays(startDate, endDate)
    {
      if Weekday(current) < 5 {
        dayCount := dayCount + 1;
      }
      current := current + 1;
    }
  }

  /** The counter agrees with the set of weekdays it is meant to count. */
  lemma {:induction false} BusinessDaysIsCardinality(start: int, end: int)
    ensures BusinessDays(start, end) == |BusinessDaySet(start, end)|
    decreases end - start
  {
    if start > end {
      assert BusinessDaySet(start, end) == {};
    } else {
      BusinessDaysIsCardinality(start + 1, end);
      var rest := BusinessDaySet(start + 1, end);
      assert start !in rest;
      if IsBusinessDay(start) {
        assert BusinessDaySet(start, end) == {start} + rest;
      } else {
        assert BusinessDaySet(start, end) == rest;
      }
    }
  }

  /** An empty range counts 0, otherwise the count never exceeds the range length. */
  lemma {:induction false} BusinessDaysBounds(start: int, end: int)
    ensures start > end ==> BusinessDays(start, end) == 0
    ensures start <= end ==> BusinessDays(start, end) <= end - start + 1
    decreases end - start
  {
    if start <= end {
      BusinessDaysBounds(start + 1, end);
    }
  }

  /** Counting a range equals counting its two halves. */
  lemma {:induction false} BusinessDaysSplit(start: int, mid: int, end: int)
    requires start - 1 <= mid <= end
    ensures BusinessDays(start, end) == BusinessDays(start, mid) + BusinessDays(mid + 1, end)
    decreases mid - start
  {
    if start <= mid {
      BusinessDaysSplit(start + 1, mid, end);
    }
  }

  /** A range made of weekdays only (Monday to Friday of one week, say) counts every day. */
  lemma {:induction false} AllWeekdaysCount(start: int, end: int)
    requires start <= end + 1
    requires forall d :: start <= d <= end ==> IsBusinessDay(d)
    ensures BusinessDays(start, end) == end - start + 1
    decreases end - start
  {
    if start <= end {
      AllWeekdaysCount(start + 1, end);
    }
  }

  /** The weekday of the next day: one further on, Sunday wrapping to Monday. */
  lemma NextWeekday(d: int)
    ensures Weekday(d + 1) == if Weekday(d) == 6 then 0 else Weekday(d) + 1
  {
  }

  /** Any 7 consecutive days hold exactly 5 business days. */
  lemma FullWeek(start: int)
    ensures BusinessDays(start, start + 6) == 5
  {
    NextWeekday(start);
    NextWeekday(start + 1);
    NextWeekday(start + 2);
    NextWeekday(start + 3);
    NextWeekday(start + 4);
    NextWeekday(start + 5);
    // Unfold the count one day at a time, from the last day back to the first.
    assert BusinessDays(start + 7, start + 6) == 0;
    assert BusinessDays(start + 6, start + 6) == (if IsBusinessDay(start + 6) then 1 else 0);
    assert BusinessDays(start + 5, start + 6) == (if IsBusinessDay(start + 5) then 1 else 0) + BusinessDays(start + 6, start + 6);
    assert BusinessDays(start + 4, start + 6) == (if IsBusinessDay(start + 4) then 1 else 0) + BusinessDays(start + 5, start + 6);
    assert BusinessDays(start + 3, start + 6) == (if IsBusinessDay(start + 3) then 1 else 0) + BusinessDays(start + 4, start + 6);
    assert BusinessDays(start + 2, start + 6) == (if IsBusinessDay(start + 2) then 1 else 0) + BusinessDays(start + 3, start + 6);
    assert BusinessDays(start + 1, start + 6) == (if IsBusinessDay(start + 1) then 1 else 0) + BusinessDays(start + 2, start + 6);
  }

  /** k whole weeks hold 5k business days, wherever they start. */
  lemma {:induction false} WholeWeeks(start: int, k: nat)
    ensures BusinessDays(start, start + 7 * k - 1) == 5 * k
  {
    if k > 0 {
      WholeWeeks(start, k - 1);
      BusinessDaysSplit(start, start + 7 * (k - 1) - 1, start + 7 * k - 1);
      FullWeek(start + 7 * (k - 1));
    }
  }
}
