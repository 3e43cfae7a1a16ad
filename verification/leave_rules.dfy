/**
 * The leave tracker's pure rules: annual-leave accrual by tenure, the number
 * of days a request asks for, and who may cancel an approved request when.
 *
 * Dates are day ordinals (see module Dates): `today` is a parameter where the
 * application calls `date.today()`, and `date - date` is ordinal subtraction.
 * Day counts are Dafny `real`s, so half days are exact.
 */
module LeaveRules {
  import opened Wrappers
  import opened Times
  import Dates

  /** 연차 (a full-day annual leave), 오전반차 (morning half day),
      오후반차 (afternoon half day). */
  datatype LeaveType = Annual | MorningHalf | AfternoonHalf {
    predicate IsHalfDay() {
      MorningHalf? || AfternoonHalf?
    }
  }

  /** 승인대기 (pending), 승인완료 (approved), 반려 (rejected), 취소됨 (cancelled). */
  datatype Status = Pending | Approved | Rejected | Cancelled

  /** One leave request as the tracker stores it. People other than the
      applicant's id are identified by display name, as in the application. */
  datatype Application = Application(
    id: int,
    applicantId: int,
    applicantName: string,
    kind: LeaveType,
    startDate: int,
    endDate: int,
    days: real,
    reason: string,
    middleApprover: Option<string>,
    approver: string,
    status: Status,
    appliedAt: Timestamp,
    processedAt: Option<Timestamp>,
    selectedDates: Option<set<int>>)

  /** `name` is the record's final approver or its middle approver. */
  predicate IsApproverOf(app: Application, name: string) {
    app.approver == name || app.middleApprover == Some(name)
  }

  // ---------------------------------------------------------------- accrual

  const DaysPerYear: int := 365
  const MaxAnnualLeave: int := 25

  /** Whole years of service, `(today - join_date).days // 365`. For a
      positive divisor Dafny's `/` rounds down exactly like Python's `//`,
      including for a join date in the future. */
  function WorkYears(tenureDays: int): int {
    tenureDays / DaysPerYear
  }

  /** `calculate_annual_leave`: 11 days under one year of service, 15 days in
      years one and two, then one more day per year, capped at 25. */
  function AnnualLeave(tenureDays: int): (total: int)
    ensures 11 <= total <= MaxAnnualLeave
  {
    var years := WorkYears(tenureDays);
    if years < 1 then 11
    else if years < 3 then 15
    else if 15 + (years - 2) < MaxAnnualLeave then 15 + (years - 2) else MaxAnnualLeave
  }

  /** The three tiers stated in days of service: below 365 days, from 365 up
      to 1095 days, and from 1095 days on. */
  lemma AnnualLeaveTiers(tenureDays: int)
    ensures tenureDays < 365 ==> AnnualLeave(tenureDays) == 11
    ensures 365 <= tenureDays < 1095 ==> AnnualLeave(tenureDays) == 15
    ensures tenureDays >= 1095 ==>
              var years := tenureDays / 365;
              AnnualLeave(tenureDays) == if 15 + (years - 2) < 25 then 15 + (years - 2) else 25
  {
  }

  /** More service never means less leave. */
  lemma {:induction false} AnnualLeaveMonotonic(t1: int, t2: int)
    requires t1 <= t2
    ensures AnnualLeave(t1) <= AnnualLeave(t2)
  {
  }

  /** The cap of 25 days is reached exactly at 12 years (4380 days) of
      service, and below it every further year adds a day. */
  lemma AnnualLeaveCap(tenureDays: int)
    ensures AnnualLeave(tenureDays) == MaxAnnualLeave <==> tenureDays >= 12 * DaysPerYear
    ensures 3 * DaysPerYear <= tenureDays < 12 * DaysPerYear ==>
              AnnualLeave(tenureDays + DaysPerYear) == AnnualLeave(tenureDays) + 1
  {
  }

  /** An employee who joined on 2020-03-15 has 18 days of leave on 2025-08-20
      (1984 days, five whole years of service). */
  lemma AnnualLeaveExample()
    ensures Dates.ToOrdinal(2025, 8, 20) - Dates.ToOrdinal(2020, 3, 15) == 1984
    ensures AnnualLeave(Dates.ToOrdinal(2025, 8, 20) - Dates.ToOrdinal(2020, 3, 15)) == 18
  {
  }

  // ---------------------------------------------------------- day counting

  /** The calendar days from `start` to `end`, both included. */
  function DateRange(start: int, end: int): (days: set<int>)
    ensures forall d :: d in days <==> start <= d <= end
    decreases end - start
  {
    if start > end then {} else DateRange(start, end - 1) + {end}
  }

  /** `calculate_days`: a half day counts 0.5 whatever the dates; otherwise
      the inclusive count `(end - start).days + 1`, which is zero or negative
      for an end before the start. */
  function CalculateDays(start: int, end: int, kind: LeaveType): (days: real)
    ensures kind.IsHalfDay() ==> days == 0.5
    ensures !kind.IsHalfDay() ==> (days >= 1.0 <==> end >= start)
  {
    if kind.IsHalfDay() then 0.5 else (end - start + 1) as real
  }

  /** A full-day request counts exactly the days of its date range. */
  lemma {:induction false} FullDaysAreRangeSize(start: int, end: int, kind: LeaveType)
    requires !kind.IsHalfDay() && start <= end
    ensures CalculateDays(start, end, kind) == |DateRange(start, end)| as real
  {
    RangeSize(start, end);
  }

  lemma {:induction false} RangeSize(start: int, end: int)
    requires start <= end + 1
    ensures |DateRange(start, end)| == end - start + 1
    decreases end - start
  {
    if start <= end {
      RangeSize(start, end - 1);
      assert end !in DateRange(start, end - 1);
    }
  }

  /** 단일 날짜 (one day), 기간 선택 (a period), 개별 날짜 선택 (individually
      picked days); the form offers the choice only for full-day leave. */
  datatype DateMode = SingleDay | Period | IndividualDays

  /** The request's day count: for full-day leave with individually picked
      days it is the number of picked days, and otherwise `calculate_days`. */
  function RequestedDays(kind: LeaveType, mode: DateMode, start: int, end: int, picked: set<int>): (days: real)
    ensures kind == Annual && mode == IndividualDays ==> days == |picked| as real
    ensures kind.IsHalfDay() ==> days == 0.5
    ensures kind == Annual && mode != IndividualDays ==> days == (end - start + 1) as real
  {
    if kind == Annual && mode == IndividualDays then |picked| as real
    else CalculateDays(start, end, kind)
  }

  /** Picking every day of a period one by one asks for the same number of
      days as choosing that period. */
  lemma {:induction false} PickedRangeMatchesPeriod(start: int, end: int)
    requires start <= end
    ensures RequestedDays(Annual, IndividualDays, start, end, DateRange(start, end))
         == RequestedDays(Annual, Period, start, end, {})
  {
    RangeSize(start, end);
  }

  /** `start` and `end` are the earliest and latest of the picked days, or
      both `today` when nothing is picked. */
  predicate IsSpan(picked: set<int>, today: int, start: int, end: int) {
    && (picked == {} ==> start == today && end == today)
    && (picked != {} ==> start in picked && end in picked)
    && (forall d :: d in picked ==> start <= d <= end)
  }

  /** The start and end recorded for individually picked days. */
  method PickedSpan(picked: set<int>, today: int) returns (start: int, end: int)
    ensures IsSpan(picked, today, start, end)
  {
    if picked == {} {
      return today, today;
    }
    Member(picked);
    var first :| first in picked;
    start, end := first, first;
    var rest := picked - {first};
    while rest != {}
      invariant rest <= picked
      invariant start in picked && end in picked
      invariant forall d :: d in picked && d !in rest ==> start <= d <= end
      decreases rest
    {
      Member(rest);
      var d :| d in rest;
      if d < start {
        start := d;
      }
      if d > end {
        end := d;
      }
      rest := rest - {d};
    }
  }

  lemma Member(s: set<int>)
    requires s != {}
    ensures exists d :: d in s
  {
    if forall d :: d !in s {
      assert false;
    }
  }

  // --------------------------------------------------------- cancellation

  /** 'self' (the applicant) or 'approver' (the approver or middle approver). */
  datatype CancelRole = SelfCancel | ApproverCancel

  /** `can_cancel`'s pair: `(False, None)` or `(True, role)`. */
  datatype CancelCheck = NotCancellable | Cancellable(role: CancelRole)

  /** `can_cancel`: only an approved request can be cancelled; up to the day
      before its start by the applicant, from the start day on by its
      approver or middle approver. */
  function CanCancel(app: Application, actorName: string, today: int): (c: CancelCheck)
    ensures app.status != Approved ==> c == NotCancellable
    ensures c == Cancellable(SelfCancel) <==>
              app.status == Approved && today <= app.startDate - 1 && app.applicantName == actorName
    ensures c == Cancellable(ApproverCancel) <==>
              app.status == Approved && today > app.startDate - 1 && IsApproverOf(app, actorName)
  {
    var dayBefore := app.startDate - 1;
    if app.status != Approved then NotCancellable
    else if today <= dayBefore && app.applicantName == actorName then Cancellable(SelfCancel)
    else if today > dayBefore && IsApproverOf(app, actorName) then Cancellable(ApproverCancel)
    else NotCancellable
  }

  /** With the start tomorrow the applicant can still cancel; from the start
      day on only an approver can, whatever the applicant tries. */
  lemma CancelDeadline(app: Application, today: int)
    requires app.status == Approved
    ensures app.startDate == today + 1 ==> CanCancel(app, app.applicantName, today) == Cancellable(SelfCancel)
    ensures app.startDate <= today ==>
              CanCancel(app, app.approver, today) == Cancellable(ApproverCancel)
    ensures app.startDate <= today && !IsApproverOf(app, app.applicantName) ==>
              CanCancel(app, app.applicantName, today) == NotCancellable
  {
  }
}
