/**
 * The leave tracker's list of requests: the balance derived from it, the
 * approval queue, submission (which appends) and the approve / reject /
 * cancel buttons (which update one record in place). The list is
 * append-only: nothing ever removes a record.
 */
module LeaveLedger {
  import opened Wrappers
  import opened Times
  import opened LeaveRules

  /** The signed-in employee: the id and name stamped on new requests, and
      the join date the accrual is computed from. */
  datatype Employee = Employee(id: int, name: string, joinDate: int)

  // --------------------------------------------------------------- balance

  /** This record counts toward `applicantId`'s used days: it is theirs and approved. */
  predicate CountsAsUsed(app: Application, applicantId: int) {
    app.applicantId == applicantId && app.status == Approved
  }

  /** Days a record contributes to its applicant's used total. */
  function UsedBy(app: Application, applicantId: int): real {
    if CountsAsUsed(app, applicantId) then app.days else 0.0
  }

  /** The sum of `days` over `applicantId`'s approved records: nothing when
      none of the records counts. */
  function UsedDays(apps: seq<Application>, applicantId: int): (used: real)
    ensures (forall i :: 0 <= i < |apps| ==> !CountsAsUsed(apps[i], applicantId)) ==> used == 0.0
    decreases |apps|
  {
    if |apps| == 0 then 0.0
    else UsedDays(apps[..|apps| - 1], applicantId) + UsedBy(apps[|apps| - 1], applicantId)
  }

  datatype Balance = Balance(total: int, used: real, remaining: real)

  /** `calculate_vacation_balance` for `user` on day `today`. */
  function VacationBalance(apps: seq<Application>, user: Employee, today: int): (b: Balance)
    ensures b.total == AnnualLeave(today - user.joinDate) && 11 <= b.total <= 25
    ensures b.used == UsedDays(apps, user.id)
    ensures b.remaining == b.total as real - b.used
  {
    var total := AnnualLeave(today - user.joinDate);
    var used := UsedDays(apps, user.id);
    Balance(total, used, total as real - used)
  }

  /** Appending a record adds exactly its own contribution. */
  lemma {:induction false} UsedDaysAppend(apps: seq<Application>, app: Application, applicantId: int)
    ensures UsedDays(apps + [app], applicantId) == UsedDays(apps, applicantId) + UsedBy(app, applicantId)
  {
    assert (apps + [app])[..|apps|] == apps;
  }

  /** Replacing one record changes the used total by the difference of the
      two records' contributions, and by nothing else. */
  lemma {:induction false} UsedDaysReplace(apps: seq<Application>, i: nat, app: Application, applicantId: int)
    requires i < |apps|
    ensures UsedDays(apps[i := app], applicantId)
         == UsedDays(apps, applicantId) - UsedBy(apps[i], applicantId) + UsedBy(app, applicantId)
    decreases |apps|
  {
    var n := |apps| - 1;
    var apps' := apps[i := app];
    if i == n {
      assert apps'[..n] == apps[..n];
    } else {
      assert apps'[..n] == apps[..n][i := app];
      UsedDaysReplace(apps[..n], i, app, applicantId);
    }
  }

  /** A used total is never negative while every approved record asks for a
      positive number of days (as submission guarantees). */
  lemma {:induction false} UsedDaysNonNegative(apps: seq<Application>, applicantId: int)
    requires forall i :: 0 <= i < |apps| ==> apps[i].days > 0.0
    ensures UsedDays(apps, applicantId) >= 0.0
    decreases |apps|
  {
    if |apps| > 0 {
      UsedDaysNonNegative(apps[..|apps| - 1], applicantId);
    }
  }

  // ------------------------------------------------------- record updates

  /** Position of the first record with this id, as the `for ... break`
      loops of the approve / reject / cancel buttons find it. */
  function FindId(apps: seq<Application>, id: int): (k: Option<nat>)
    ensures k.Some? ==> k.value < |apps| && apps[k.value].id == id
    ensures k.Some? ==> forall j :: 0 <= j < k.value ==> apps[j].id != id
    ensures k.None? <==> forall j :: 0 <= j < |apps| ==> apps[j].id != id
  {
    if |apps| == 0 then None
    else if apps[0].id == id then Some(0)
    else
      match FindId(apps[1..], id)
      case None => None
      case Some(k) => Some(k + 1)
  }

  /** Sets status and `processed_at` on the first record with this id and
      leaves every other record, and every other field, as it was. */
  function SetStatus(apps: seq<Application>, id: int, status: Status, now: Timestamp): (r: seq<Application>)
    ensures |r| == |apps|
    ensures FindId(apps, id).None? ==> r == apps
    ensures FindId(apps, id).Some? ==>
              var k := FindId(apps, id).value;
              r == apps[k := apps[k].(status := status, processedAt := Some(now))]
  {
    if |apps| == 0 then []
    else if apps[0].id == id then [apps[0].(status := status, processedAt := Some(now))] + apps[1..]
    else [apps[0]] + SetStatus(apps[1..], id, status, now)
  }

  /** 결재 대기: the pending records this person approves, finally or as
      middle approver, in list order. */
  function PendingQueue(apps: seq<Application>, actorName: string): (q: seq<Application>)
    ensures |q| <= |apps|
    ensures forall a :: a in q <==> a in apps && a.status == Pending && IsApproverOf(a, actorName)
  {
    if |apps| == 0 then []
    else
      var rest := PendingQueue(apps[1..], actorName);
      if apps[0].status == Pending && IsApproverOf(apps[0], actorName) then [apps[0]] + rest else rest
  }

  /** The approve button of a queue entry (`clicked`): marks the first record
      with the clicked id approved. Only queue entries carry the button, so a
      record that is not in the actor's queue changes nothing. */
  function Approve(apps: seq<Application>, actorName: string, clicked: Application, now: Timestamp): (r: seq<Application>)
    ensures |r| == |apps|
    ensures clicked !in PendingQueue(apps, actorName) ==> r == apps
    ensures WellNumbered(apps) && clicked in PendingQueue(apps, actorName) ==>
              && 1 <= clicked.id <= |apps|
              && r == apps[clicked.id - 1 := clicked.(status := Approved, processedAt := Some(now))]
  {
    ClickedPosition(apps, clicked);
    if clicked in PendingQueue(apps, actorName) then SetStatus(apps, clicked.id, Approved, now) else apps
  }

  /** The reject button of a queue entry, like `Approve` with status 반려. */
  function Reject(apps: seq<Application>, actorName: string, clicked: Application, now: Timestamp): (r: seq<Application>)
    ensures |r| == |apps|
    ensures clicked !in PendingQueue(apps, actorName) ==> r == apps
    ensures WellNumbered(apps) && clicked in PendingQueue(apps, actorName) ==>
              && 1 <= clicked.id <= |apps|
              && r == apps[clicked.id - 1 := clicked.(status := Rejected, processedAt := Some(now))]
  {
    ClickedPosition(apps, clicked);
    if clicked in PendingQueue(apps, actorName) then SetStatus(apps, clicked.id, Rejected, now) else apps
  }

  /** The cancel button in the signed-in employee's own history: shown for
      their records that `can_cancel` allows, it marks the first record with
      that id cancelled. */
  function Cancel(apps: seq<Application>, user: Employee, clicked: Application, today: int, now: Timestamp): (r: seq<Application>)
    ensures |r| == |apps|
    ensures (|| clicked !in apps
             || clicked.applicantId != user.id
             || CanCancel(clicked, user.name, today).NotCancellable?) ==> r == apps
    ensures && WellNumbered(apps) && clicked in apps && clicked.applicantId == user.id
            && CanCancel(clicked, user.name, today).Cancellable? ==>
              && 1 <= clicked.id <= |apps|
              && r == apps[clicked.id - 1 := clicked.(status := Cancelled, processedAt := Some(now))]
  {
    ClickedPosition(apps, clicked);
    if clicked in apps && clicked.applicantId == user.id && CanCancel(clicked, user.name, today).Cancellable?
    then SetStatus(apps, clicked.id, Cancelled, now)
    else apps
  }

  // ------------------------------------------------- the state machine

  /** The status changes the tracker allows: none, pending to approved or
      rejected, approved to cancelled. */
  predicate AllowedStep(before: Status, after: Status) {
    || before == after
    || (before == Pending && (after == Approved || after == Rejected))
    || (before == Approved && after == Cancelled)
  }

  /** `after` is `before` with records possibly appended and existing records
      changed only in status (along an allowed step) and `processed_at`. */
  predicate Evolves(before: seq<Application>, after: seq<Application>) {
    && |before| <= |after|
    && forall i :: 0 <= i < |before| ==>
         && after[i].(status := before[i].status, processedAt := before[i].processedAt) == before[i]
         && AllowedStep(before[i].status, after[i].status)
  }

  /** Record ids equal their position plus one: `id = len(applications) + 1`
      at every append, and nothing is ever removed. */
  predicate WellNumbered(apps: seq<Application>) {
    forall i :: 0 <= i < |apps| ==> apps[i].id == i + 1
  }

  /** In a well-numbered list the record with id `i + 1` is at position `i`. */
  lemma {:induction false} FindIdWellNumbered(apps: seq<Application>, i: nat)
    requires WellNumbered(apps) && i < |apps|
    ensures FindId(apps, i + 1) == Some(i)
  {
    assert apps[i].id == i + 1;
  }

  /** In a well-numbered list a listed record sits at position `id - 1`, the
      first with its id. */
  lemma ClickedPosition(apps: seq<Application>, clicked: Application)
    ensures WellNumbered(apps) && clicked in apps ==>
              && 1 <= clicked.id <= |apps| && apps[clicked.id - 1] == clicked
              && FindId(apps, clicked.id) == Some(clicked.id - 1)
  {
    if WellNumbered(apps) && clicked in apps {
      var i :| 0 <= i < |apps| && apps[i] == clicked;
      FindIdWellNumbered(apps, i);
    }
  }

  /** Updating the record with a given id along an allowed step keeps the
      list well numbered and is an allowed evolution. */
  lemma {:induction false} SetStatusEvolves(apps: seq<Application>, id: int, status: Status, now: Timestamp)
    requires WellNumbered(apps)
    requires FindId(apps, id).Some? ==> AllowedStep(apps[FindId(apps, id).value].status, status)
    ensures WellNumbered(SetStatus(apps, id, status, now))
    ensures Evolves(apps, SetStatus(apps, id, status, now))
  {
    var r := SetStatus(apps, id, status, now);
    if FindId(apps, id).Some? {
      var k := FindId(apps, id).value;
      assert r == apps[k := apps[k].(status := status, processedAt := Some(now))];
      forall i | 0 <= i < |apps|
        ensures r[i].(status := apps[i].status, processedAt := apps[i].processedAt) == apps[i]
        ensures AllowedStep(apps[i].status, r[i].status)
      {
        if i == k {
          assert r[i] == apps[k].(status := status, processedAt := Some(now));
        } else {
          assert r[i] == apps[i];
        }
      }
    }
  }

  /** The approve button keeps the list well numbered and only moves a
      pending record to approved. */
  lemma {:induction false} ApproveEvolves(apps: seq<Application>, actorName: string, clicked: Application, now: Timestamp)
    requires WellNumbered(apps)
    ensures var r := Approve(apps, actorName, clicked, now); WellNumbered(r) && Evolves(apps, r)
  {
    if clicked in PendingQueue(apps, actorName) {
      var i :| 0 <= i < |apps| && apps[i] == clicked;
      FindIdWellNumbered(apps, i);
      SetStatusEvolves(apps, clicked.id, Approved, now);
    }
  }

  /** The reject button keeps the list well numbered and only moves a
      pending record to rejected. */
  lemma {:induction false} RejectEvolves(apps: seq<Application>, actorName: string, clicked: Application, now: Timestamp)
    requires WellNumbered(apps)
    ensures var r := Reject(apps, actorName, clicked, now); WellNumbered(r) && Evolves(apps, r)
  {
    if clicked in PendingQueue(apps, actorName) {
      var i :| 0 <= i < |apps| && apps[i] == clicked;
      FindIdWellNumbered(apps, i);
      SetStatusEvolves(apps, clicked.id, Rejected, now);
    }
  }

  /** The cancel button keeps the list well numbered and only moves an
      approved record to cancelled. */
  lemma {:induction false} CancelEvolves(apps: seq<Application>, user: Employee, clicked: Application,
                                         today: int, now: Timestamp)
    requires WellNumbered(apps)
    ensures var r := Cancel(apps, user, clicked, today, now); WellNumbered(r) && Evolves(apps, r)
  {
    if clicked in apps && clicked.applicantId == user.id && CanCancel(clicked, user.name, today).Cancellable? {
      var i :| 0 <= i < |apps| && apps[i] == clicked;
      FindIdWellNumbered(apps, i);
      SetStatusEvolves(apps, clicked.id, Cancelled, now);
    }
  }

  /** Approve and reject fire only on a pending record; once one has fired,
      the record has left every queue, so the other can no longer fire. */
  lemma {:induction false} DecisionIsFinal(apps: seq<Application>, actorName: string, clicked: Application,
                                           now: Timestamp, anyone: string)
    requires WellNumbered(apps)
    requires clicked in PendingQueue(apps, actorName)
    ensures var r := Approve(apps, actorName, clicked, now);
            r[clicked.id - 1].status == Approved && apps[clicked.id - 1].status == Pending
            && forall a :: a in PendingQueue(r, anyone) ==> a.id != clicked.id
    ensures var r := Reject(apps, actorName, clicked, now);
            r[clicked.id - 1].status == Rejected && apps[clicked.id - 1].status == Pending
            && forall a :: a in PendingQueue(r, anyone) ==> a.id != clicked.id
  {
    var i :| 0 <= i < |apps| && apps[i] == clicked;
    FindIdWellNumbered(apps, i);
  }

  /** Rejected and cancelled records are final: no button changes them. */
  lemma {:induction false} TerminalStatusesStay(apps: seq<Application>, actor: Employee, clicked: Application,
                                                today: int, now: Timestamp, i: nat)
    requires WellNumbered(apps) && i < |apps|
    requires apps[i].status == Rejected || apps[i].status == Cancelled
    ensures Approve(apps, actor.name, clicked, now)[i] == apps[i]
    ensures Reject(apps, actor.name, clicked, now)[i] == apps[i]
    ensures Cancel(apps, actor, clicked, today, now)[i] == apps[i]
  {
    assert Approve(apps, actor.name, clicked, now)[i] == apps[i] by {
      if clicked in PendingQueue(apps, actor.name) {
        OtherRecordUntouched(apps, clicked, i, Approved, now);
      }
    }
    assert Reject(apps, actor.name, clicked, now)[i] == apps[i] by {
      if clicked in PendingQueue(apps, actor.name) {
        OtherRecordUntouched(apps, clicked, i, Rejected, now);
      }
    }
    assert Cancel(apps, actor, clicked, today, now)[i] == apps[i] by {
      if clicked in apps && clicked.applicantId == actor.id && CanCancel(clicked, actor.name, today).Cancellable? {
        OtherRecordUntouched(apps, clicked, i, Cancelled, now);
      }
    }
  }

  /** Updating the record of `clicked` leaves a record in another status as
      it was. */
  lemma {:induction false} OtherRecordUntouched(apps: seq<Application>, clicked: Application, i: nat,
                                                status: Status, now: Timestamp)
    requires WellNumbered(apps) && i < |apps|
    requires clicked in apps && clicked.status != apps[i].status
    ensures SetStatus(apps, clicked.id, status, now)[i] == apps[i]
  {
    var j :| 0 <= j < |apps| && apps[j] == clicked;
    FindIdWellNumbered(apps, j);
  }

  /** Cancelling an approved record of the employee lowers their used days by
      that record's days, so the balance's remaining days rise by as much. */
  lemma {:induction false} CancelCreditsBalance(apps: seq<Application>, user: Employee, clicked: Application,
                                                today: int, now: Timestamp)
    requires WellNumbered(apps)
    requires clicked in apps && clicked.applicantId == user.id
    requires CanCancel(clicked, user.name, today).Cancellable?
    ensures UsedDays(Cancel(apps, user, clicked, today, now), user.id) == UsedDays(apps, user.id) - clicked.days
    ensures VacationBalance(Cancel(apps, user, clicked, today, now), user, today).remaining
         == VacationBalance(apps, user, today).remaining + clicked.days
  {
    var i :| 0 <= i < |apps| && apps[i] == clicked;
    FindIdWellNumbered(apps, i);
    var app' := apps[i].(status := Cancelled, processedAt := Some(now));
    assert Cancel(apps, user, clicked, today, now) == apps[i := app'];
    UsedDaysReplace(apps, i, app', user.id);
  }

  // ------------------------------------------------------------ submission

  /** What the request form holds when 신청하기 is pressed. An empty approver
      stands for a form with nobody to choose. */
  datatype RequestForm = RequestForm(
    kind: LeaveType,
    mode: DateMode,
    startDate: int,
    endDate: int,
    picked: set<int>,
    reason: string,
    middleApprover: Option<string>,
    approver: string)

  /** Why a submission is refused, in the order the checks run. */
  datatype SubmitError = MissingField | NoDaysSelected | InsufficientBalance

  function FormDays(form: RequestForm): real {
    RequestedDays(form.kind, form.mode, form.startDate, form.endDate, form.picked)
  }

  predicate UsesPickedDays(form: RequestForm) {
    form.kind == Annual && form.mode == IndividualDays
  }

  /** Submitting the form: refused when the reason or the approver is empty,
      then when it asks for no days, then when it asks for more days than
      remain; otherwise a pending, unprocessed record is appended with the
      next id. */
  function Submit(apps: seq<Application>, user: Employee, form: RequestForm, today: int, now: Timestamp)
    : (r: Result<seq<Application>, SubmitError>)
    ensures r == Failure(MissingField) <==> form.reason == "" || form.approver == ""
    ensures r == Failure(NoDaysSelected) <==>
              form.reason != "" && form.approver != "" && FormDays(form) <= 0.0
    ensures r == Failure(InsufficientBalance) <==>
              form.reason != "" && form.approver != "" && FormDays(form) > 0.0
              && FormDays(form) > VacationBalance(apps, user, today).remaining
    ensures r.Success? ==>
              && |r.value| == |apps| + 1 && r.value[..|apps|] == apps
              && var app := r.value[|apps|];
                 && app.id == |apps| + 1 && app.status == Pending && app.processedAt.None?
                 && app.applicantId == user.id && app.applicantName == user.name
                 && app.days == FormDays(form) && 0.0 < app.days <= VacationBalance(apps, user, today).remaining
                 && app.kind == form.kind && app.startDate == form.startDate && app.endDate == form.endDate
                 && app.reason == form.reason && app.reason != ""
                 && app.middleApprover == form.middleApprover
                 && app.approver == form.approver && app.approver != ""
                 && app.appliedAt == now
                 && app.selectedDates == (if UsesPickedDays(form) then Some(form.picked) else None)
  {
    var days := FormDays(form);
    var balance := VacationBalance(apps, user, today);
    if form.reason == "" || form.approver == "" then Failure(MissingField)
    else if days <= 0.0 then Failure(NoDaysSelected)
    else if days > balance.remaining then Failure(InsufficientBalance)
    else
      var app := Application(
        |apps| + 1, user.id, user.name, form.kind, form.startDate, form.endDate, days,
        form.reason, form.middleApprover, form.approver, Pending, now, None,
        if UsesPickedDays(form) then Some(form.picked) else None);
      Success(apps + [app])
  }

  /** A submission keeps the list well numbered, changes no existing record,
      and leaves every employee's used days as they were (a new record is
      pending, and only approved records count). */
  lemma {:induction false} SubmitPreserves(apps: seq<Application>, user: Employee, form: RequestForm,
                                           today: int, now: Timestamp, anyId: int)
    requires WellNumbered(apps)
    requires Submit(apps, user, form, today, now).Success?
    ensures var r := Submit(apps, user, form, today, now).value;
            WellNumbered(r) && Evolves(apps, r) && UsedDays(r, anyId) == UsedDays(apps, anyId)
  {
    var r := Submit(apps, user, form, today, now).value;
    assert r == apps + [r[|apps|]];
    UsedDaysAppend(apps, r[|apps|], anyId);
  }

  /** With individually picked days the form carries the span of the picks
      (`PickedSpan`), so the stored record starts on the earliest and ends on
      the latest picked day, asks for one day per pick and keeps the picks. */
  lemma {:induction false} SubmitStoresPickedDays(apps: seq<Application>, user: Employee, form: RequestForm,
                                                  today: int, now: Timestamp)
    requires UsesPickedDays(form) && IsSpan(form.picked, today, form.startDate, form.endDate)
    requires Submit(apps, user, form, today, now).Success?
    ensures var app := Submit(apps, user, form, today, now).value[|apps|];
            && form.picked != {}
            && app.startDate in form.picked && app.endDate in form.picked
            && (forall d :: d in form.picked ==> app.startDate <= d <= app.endDate)
            && app.days == |form.picked| as real
            && app.selectedDates == Some(form.picked)
  {
    assert FormDays(form) == |form.picked| as real;
  }
}
