# lunchlab leave tracker and admin-console helpers, in Dafny

This project models the parts of the lunchlab repository that hold decisions rather than
rendering:

- **The leave tracker** (`leave/leave_app.py`). It covers:
  - annual-leave accrual by tenure;
  - the number of days a request asks for, including half days and individually picked days;
  - the balance, which is total minus approved days;
  - who may cancel an approved request, and when;
  - submission, with its three refusal checks and the append of a pending record;
  - the approve, reject and cancel buttons, which update one record of the append-only list.
- **The admin console's helpers** (`erp/`):
  - the input validators;
  - the session flag bag, with its five keys;
  - the decision flow of the login handler, with its five-attempt lockout;
  - the nested configuration lookup, and the check for required environment variables;
  - the dashboard's display-name priority;
  - the attribute list sent with a sign-up request.

Conventions:

- Dates are day ordinals, as Python's `date.toordinal()` numbers them. Module `Dates` gives the Gregorian ordinal, so concrete dates can be stated.
- Day counts are Dafny `real`s, so half days are exact.
- `date.today()` and `datetime.now()` are parameters: `today` is an ordinal, `now` is an opaque timestamp.
- The identity provider is a parameter too: its answers to sign-in and to the user lookup are passed in.
- Strings are sequences of characters. `str.strip()` removes exactly the characters for which Python's `str.isspace()` holds.

Modules: `Wrappers` (Option, Result), `Text` (strip, lstrip, split, join), `Dates`,
`Times` (the timestamp type), `LeaveRules`, `LeaveLedger`, `Validators`, `Session`, `Login`, `Config`, `Dashboard`, `SignUp`.

## Model

| member | source | states |
|---|---|---|
| LeaveRules.AnnualLeave | leave/leave_app.py:68-77 | Accrual is always between 11 and 25 days. |
| LeaveRules.AnnualLeaveTiers | leave/leave_app.py:70-77 | Under 365 days of service gives 11. From 365 to 1094 days gives 15. From 1095 days on it is `min(15 + (years - 2), 25)` with `years = days // 365`. |
| LeaveRules.AnnualLeaveMonotonic | leave/leave_app.py:70-77 | More days of service never give fewer days of leave. |
| LeaveRules.AnnualLeaveCap | leave/leave_app.py:70-77 | The result is 25 exactly when service is at least 12 × 365 days. Between 3 and 12 years, each further year adds one day. |
| LeaveRules.AnnualLeaveExample | leave/leave_app.py:68-77 | Joining on 2020-03-15 gives 1984 days of service on 2025-08-20, and so 18 days of leave. |
| Dates.NextDayIsNextOrdinal | leave/leave_app.py:93-94 | The calendar day after a valid date has the next ordinal. So `start_date - timedelta(days=1)` is `startDate - 1`. |
| LeaveRules.CalculateDays | leave/leave_app.py:86-89 | A half-day type counts 0.5 whatever the dates. Otherwise the count is at least 1 exactly when end ≥ start. |
| LeaveRules.FullDaysAreRangeSize | leave/leave_app.py:86-89 | For a full-day request with start ≤ end, the count is the number of calendar days in the inclusive range. |
| LeaveRules.RequestedDays | leave/leave_app.py:379-384 | Full-day leave with picked days counts the picked set's size. A half day counts 0.5. A period counts `end - start + 1`. |
| LeaveRules.PickedRangeMatchesPeriod | leave/leave_app.py:379-384 | Picking every day of a period one by one asks for as many days as choosing the period. |
| LeaveRules.PickedSpan | leave/leave_app.py:335-341 | With days picked, start and end are the earliest and latest picked day. With none picked, both are `today`. |
| LeaveRules.CanCancel | leave/leave_app.py:91-106 | A request that is not approved is never cancellable. The result is 'self' iff today ≤ start − 1 and the actor is the applicant. It is 'approver' iff today > start − 1 and the actor is the approver or middle approver. |
| LeaveRules.CancelDeadline | leave/leave_app.py:91-106 | With the start tomorrow, the applicant can cancel. From the start day on, the approver can and an applicant who is not an approver cannot. |
| LeaveLedger.VacationBalance | leave/leave_app.py:79-84 | The total is the accrual for the days since joining (11 to 25). Used is the employee's approved days. Remaining equals total minus used. |
| LeaveLedger.UsedDays | leave/leave_app.py:81-83 | The used total is 0 when none of the records is the employee's and approved. Its exact change per append and per replacement is in UsedDaysAppend and UsedDaysReplace. |
| LeaveLedger.UsedDaysAppend | leave/leave_app.py:81-83 | Appending a record adds exactly its days if it is the employee's and approved, and nothing otherwise. |
| LeaveLedger.UsedDaysReplace | leave/leave_app.py:81-83 | Replacing one record changes used days by the difference of the two records' contributions only. |
| LeaveLedger.UsedDaysNonNegative | leave/leave_app.py:81-83 | Used days are never negative while every record asks for a positive number of days. |
| LeaveLedger.FindId | leave/leave_app.py:493-494 | It finds the first position holding the id, with no earlier record holding it. It finds none exactly when no record holds the id. |
| LeaveLedger.SetStatus | leave/leave_app.py:493-497 | Only the first record with the id changes, and only in status and `processed_at`. The list is unchanged when no record has the id. |
| LeaveLedger.PendingQueue | leave/leave_app.py:507-511 | A record is in the queue exactly when it is in the list, pending, and the actor is its approver or middle approver. |
| LeaveLedger.Approve | leave/leave_app.py:529-534 | It has the same length, and changes nothing unless the clicked record is in the actor's queue. In a well-numbered list a click on a queue entry replaces exactly that record (at `id - 1`) by itself approved, with `processed_at` set to now. |
| LeaveLedger.Reject | leave/leave_app.py:539-544 | It has the same length, and changes nothing unless the clicked record is in the actor's queue. In a well-numbered list a click on a queue entry replaces exactly that record by itself rejected, with `processed_at` set to now. |
| LeaveLedger.Cancel | leave/leave_app.py:489-497 | It has the same length, and changes nothing unless the clicked record is the employee's own (as listed at leave/leave_app.py:442-443) and `can_cancel` allows it. In a well-numbered list an allowed click replaces exactly that record by itself cancelled, with `processed_at` set to now. |
| LeaveLedger.FindIdWellNumbered | leave/leave_app.py:413 | In a list numbered `id = len + 1` at every append, the record with id `i + 1` sits at position `i`. |
| LeaveLedger.SetStatusEvolves | leave/leave_app.py:493-497 | An update along an allowed status step keeps the numbering, and changes existing records only in status and `processed_at`. |
| LeaveLedger.ApproveEvolves | leave/leave_app.py:529-534 | Approving keeps the numbering, and every record changes only along an allowed status step and only in status and `processed_at`. |
| LeaveLedger.RejectEvolves | leave/leave_app.py:539-544 | Rejecting keeps the numbering, and every record changes only along an allowed status step and only in status and `processed_at`. |
| LeaveLedger.CancelEvolves | leave/leave_app.py:489-497 | Cancelling keeps the numbering, and every record changes only along an allowed status step and only in status and `processed_at`. |
| LeaveLedger.DecisionIsFinal | leave/leave_app.py:507-544 | After an approve or a reject, the record that was pending has the new status and is in nobody's queue. So the other decision can no longer fire. |
| LeaveLedger.TerminalStatusesStay | leave/leave_app.py:489-544 | No button changes a rejected or cancelled record. |
| LeaveLedger.CancelCreditsBalance | leave/leave_app.py:79-84 | Cancelling one's own approved request lowers used days by its days, so remaining rises by as much. |
| LeaveLedger.Submit | leave/leave_app.py:401-428 | Submission fails with a missing field iff the reason or approver is empty. Next it fails with no days iff days ≤ 0, then with an insufficient balance iff days > remaining. Otherwise it appends one pending, unprocessed record with id `len + 1`. That record has the requested days (`0 < days ≤ remaining`). It carries the form's type, dates, reason, middle approver and approver, the applicant, `applied_at` = now, and the picked days only in picked-days mode. |
| LeaveLedger.SubmitStoresPickedDays | leave/leave_app.py:335-341 | When the form's dates are the span of the picked days, the stored record starts on the earliest and ends on the latest pick. It asks for one day per pick and keeps the picks. |
| LeaveLedger.SubmitPreserves | leave/leave_app.py:412-428 | Submitting keeps the numbering and changes no existing record. It leaves everyone's used days as they were. |
| Validators.ValidateUsername | erp/src/utils/validators.py:14-27 | The result is valid iff the stripped name has 3 to 50 characters. An empty or whitespace-only name gets the missing-name message. Every invalid result has its message and every valid one has none. |
| Validators.ValidatePassword | erp/src/utils/validators.py:30-38 | The result is valid iff the password, unstripped, has at least 8 characters. An empty password gets its own message. |
| Validators.EmailShapeMatchesPattern | erp/src/utils/validators.py:47-49 | The first-'@' / last-'.' procedure accepts exactly the strings in the language of the email pattern. |
| Validators.SplitHasShape | erp/src/utils/validators.py:47-49 | Any split that the pattern admits is the one the procedure finds: the first '@' and the last '.'. |
| Validators.ValidateEmail | erp/src/utils/validators.py:41-52 | The result is valid iff the stripped address matches the pattern. An empty or blank address gets the missing message, and any other failure gets the format message. |
| Validators.EmailExampleAccepted | erp/src/utils/validators.py:47 | "a@b.co" is in the pattern's language. |
| Validators.EmailExampleRejected | erp/src/utils/validators.py:41-52 | "a@b.c" is refused, because the top-level domain needs two letters. |
| Validators.ValidateLoginForm | erp/src/utils/validators.py:54-59 | Each field is judged on its own by its own rule. |
| Validators.FormErrors | erp/src/pages/login.py:103-110 | There is one message per invalid field, and none exactly when both fields are valid. The messages are the failing validators' own, the username's first and the password's last. |
| Session.InitSession | erp/src/utils/session.py:10-22 | Every key ends up present. A missing key gets False, None, None, 0 or None as its default, and a present key keeps its value. |
| Session.InitSessionIdempotent | erp/src/utils/session.py:10-22 | Initialising twice is the same as once. It changes nothing on an initialised bag, and no getter sees a difference. |
| Session.GetterDefaults | erp/src/utils/session.py:24-26 | On an empty bag the getters return False, 0 and None. On any bag each of the five getters returns the stored value when one is stored. |
| Session.SetAuthData | erp/src/utils/session.py:28-36 | After it, the bag is authenticated with this token and these attributes, stamped with the time, and the attempt counter is 0. |
| Session.ClearAuthData | erp/src/utils/session.py:38-43 | After it, the bag is not authenticated and the token, attributes and time are gone. The attempt counter is untouched. |
| Session.IncrementLoginAttempts | erp/src/utils/session.py:53-55 | The counter goes up by exactly one, counting from 0 when absent. Nothing else changes. |
| Session.SignInThenOut | erp/src/utils/session.py:28-43 | Signing out after signing in leaves a signed-out bag with counter 0. Signing out twice is the same as once. |
| Login.HandleLogin | erp/src/pages/login.py:100-162 | An invalid form is reported iff a field is invalid. It then shows one message per invalid field: the username validator's message first, the password validator's last. Lockout and lookup failure change nothing. The provider is reached only below 5 attempts. For a valid form below 5 attempts the outcome follows the provider: sign-in plus attributes found gives `LoggedIn` with `set_auth_data(token, attributes)`; missing attributes report the lookup message and keep the session; a refused sign-in shows its message, adds one attempt and reports 5 − attempts remaining. |
| Login.AttemptSignIn | erp/src/pages/login.py:115-162 | Past validation, it is locked out iff the counter is at least 5, and then nothing changes. Below 5 the outcome follows the provider's answers, exactly as for HandleLogin. |
| Login.ValidFormSignsIn | erp/src/pages/login.py:100-119 | With both fields valid, the handler's result is exactly that of the lockout check and sign-in. |
| Login.ValidationBeforeLockout | erp/src/pages/login.py:103-113 | Any invalid field returns the errors before the lockout check, without contacting the provider and without changing state. |
| Login.LockoutBlocksSignIn | erp/src/pages/login.py:117-119 | With at least 5 attempts, a valid form is locked out and the session is unchanged. |
| Login.AttemptsStayBounded | erp/src/pages/login.py:117-162 | Counters at or below 5 stay at or below 5, and the remaining figure shown is never negative. |
| Login.LookupFailureKeepsSession | erp/src/pages/login.py:125-152 | A sign-in whose user lookup fails leaves the session exactly as it was. |
| Login.FailuresAccumulate | erp/src/pages/login.py:117-162 | From `a` ≤ 5 attempts, `n` failed sign-ins with a valid form leave `min(a + n, 5)`. |
| Login.SixthAttemptBlocked | erp/src/pages/login.py:117-162 | After five failures from a fresh session, the next attempt is locked out whatever the provider would say. |
| Config.Resolve | erp/src/utils/config.py:52-56 | An empty path reaches the value itself. A missing key or a non-dictionary value ends the walk with nothing. |
| Config.GetConfigValue | erp/src/utils/config.py:48-57 | A path without '.' is a direct top-level lookup: the stored value, or the default when the key is missing. A configuration that is not a dictionary answers the default for every path. |
| Config.ResolveAppend | erp/src/utils/config.py:52-56 | Walking `first + rest` is walking `first` and then `rest`, and a failed prefix fails the whole walk. |
| Config.DottedPathLookup | erp/src/utils/config.py:48-57 | A path made of dot-free segments joined by '.' returns what those segments reach, or the default. |
| Config.LookupThroughLeaf | erp/src/utils/config.py:53-56 | A walk that meets a non-dictionary before the path ends returns the default. |
| Config.BuildConfig | erp/src/utils/config.py:11-17 | The aws section holds the two identity-provider variables (None when unset). The region falls back to 'ap-northeast-2' only when its variable is unset. |
| Config.AwsSettings | erp/src/utils/config.py:11-17 | Read back through their dotted paths, the three settings give the environment's values (and the region default). |
| Config.LoadAppConfig | erp/src/utils/config.py:6-46 | The loader returns the built settings when no required setting is missing. Otherwise it fails with exactly the non-empty missing list, in checking order. |
| Config.MissingFrom | erp/src/utils/config.py:25-34 | The missing list is no longer than the required list, and holds only required variable names. |
| Config.MissingConfigsExact | erp/src/utils/config.py:11-36 | The missing list is exactly the unset-or-empty variables, client id before pool id. The loader fails iff one is blank. |
| Config.LoadedRegion | erp/src/utils/config.py:11-46 | With both variables non-empty the loader succeeds, and the region is the variable or the default. |
| Dashboard.DisplayName | erp/src/pages/dashboard.py:61-79 | No attributes, or an empty map, give "사용자". A non-empty preferred username wins over everything. |
| Dashboard.NamesJoined | erp/src/pages/dashboard.py:70-74 | Without a preferred username, when either name is set, the greeting is "family given" stripped. |
| Dashboard.FullNameShown | erp/src/pages/dashboard.py:70-74 | With both names set and not padded, the result is "family given". |
| Dashboard.SingleNameShown | erp/src/pages/dashboard.py:70-74 | With only one name set, the result is that name, because the joining space is stripped. |
| Dashboard.EmailLocalPartShown | erp/src/pages/dashboard.py:76-77 | It is a prefix of the email without '@', ending right before the first '@'. It is the whole email when there is no '@'. |
| Dashboard.SubFallbackShown | erp/src/pages/dashboard.py:79 | The first min(8, length) characters of `sub` (or of "사용자" when `sub` is absent), followed by "...". |
| SignUp.NormalisePhone | erp/practice/main_onlyCode.py:32-33 | The result starts with '+'. A number starting with '+' is kept verbatim. |
| SignUp.DomesticPhone | erp/practice/main_onlyCode.py:32-33 | Any other number becomes '+82' followed by the number without its leading zeros. |
| SignUp.ZerosDroppedUnique | erp/practice/main_onlyCode.py:33 | There is only one way to drop the leading zeros. |
| SignUp.NormalisePhoneIdempotent | erp/practice/main_onlyCode.py:32-33 | Normalising a normalised number changes nothing. |
| SignUp.DomesticPhoneExample | erp/practice/main_onlyCode.py:32-33 | "010-1234-5678" is sent as "+8210-1234-5678". |
| SignUp.SignUpAttributes | erp/practice/main_onlyCode.py:24-40 | The email comes first and is always present. The length is one plus the number of supplied optional fields. |
| SignUp.SignUpAttributesShape | erp/practice/main_onlyCode.py:24-40 | Names follow the order email, phone, given, family, with none twice. Each optional attribute is present iff its field is non-blank, and its value is normalised or stripped. |
| SignUp.StoredNamesStripped | erp/practice/main_onlyCode.py:36-40 | Stored given and family names are non-empty and already stripped. |

## Left out

- Rendering: all Streamlit rendering, CSS, calendar grids, expanders, spinners, balloons, sleeps and reruns. Only the decisions they display are modelled.
- Identity-provider calls: the boto3 Cognito calls, URL building and token exchange, and `auth.sign_in` / `auth.get_user_info` themselves. Their outcomes are parameters of `Login.HandleLogin`. `erp/src/auth/cognito_auth.py` is not part of this model.
- The sign-up request: the model stops at the attribute list handed to the client. The `sign_up` call and its error mapping (erp/practice/main_onlyCode.py:42-50 onward) are service calls.
- Session expiry and browser storage: the shown code has no expiry logic, and the `get_session_info` / `extend_session` methods called elsewhere are not defined in `session.py`.
- Session restore on the login page: the page calls `get_session_info()` (erp/src/pages/login.py:19, 29) before it renders the form (line 22). Since that method is not defined, the shown page would stop there and never reach `_handle_login`. The model treats the handler as reachable, which is what the page evidently intends.
- Configuration loading side effects: `load_dotenv`, `st.cache_data`, the error display and `st.stop` are side effects. The stop is the `Failure` side of the result, and the environment is a map argument. The loader's own `.get` chain (erp/src/utils/config.py:28-31) is modelled by the same walk as `get_config_value`. The two agree on the built settings, because every intermediate value there is a dictionary.
- Approver labels: the form's approver choice is taken as the bare name. The `split(' (')[0]` label parsing and the "선택 안함" (none) choice are not modelled beyond `middleApprover: Option<string>`.
- Dates as text: the 'YYYY-MM-DD' strftime / strptime round trip is treated as the identity on day ordinals. The `selected_dates` list is modelled as a set, which is what the code builds it from.
- Mock data: the demo-application button (leave/leave_app.py:139-160), the random chart and metric data, and the ORM tables and migrations hold no decision logic.
- Floating point: Python adds `days` as floats; the model adds exact reals. Only sums of halves and whole numbers occur, and those are exact in binary floating point too.
- Name-based identity: approvers and applicants are compared by display name, as in the code, and ambiguity under duplicate names is kept rather than fixed.
- The history display: the history list shows only the employee's own records, and the model states that as the button's guard rather than modelling the sorted display.

## Notes on the code

- Cancelling and the balance: the balance is recomputed from the approved records every time it is shown (leave/leave_app.py:79-84). A cancelled request therefore stops counting, and its days come back. `LeaveLedger.CancelCreditsBalance` proves this.
- Approval order: the in-app policy text says approval goes from the middle approver to the final approver (leave/leave_app.py:603-605). In the code, either approver can decide a pending request with one click (leave/leave_app.py:507-511, 529-534). The model follows the code: `LeaveLedger.PendingQueue` lists a request for both approvers.
- Who may cancel: the in-app policy text says only the approver may cancel from the start day on (leave/leave_app.py:601-602). But the cancel button appears only in the applicant's own history (leave/leave_app.py:442-443, 490-492), so an approver never sees a button for someone else's request. `LeaveLedger.Cancel` keeps that guard.
