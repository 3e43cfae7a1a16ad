/**
 * The decision flow of the login form's submit handler: validate the form,
 * refuse after too many failed attempts, otherwise try the identity
 * provider and record the outcome in the session bag.
 *
 * The identity provider is not modelled: the outcome of signing in and of
 * the user-attribute lookup are parameters, and whether the provider was
 * contacted is read off the handler's outcome.
 */
module Login {
  import opened Times
  import opened Validators
  import opened Session

  /** Failed sign-ins allowed before the form refuses to try again. */
  const MaxLoginAttempts: int := 5

  /** What the provider answers to a sign-in. */
  datatype SignInResult = SignInSucceeded(accessToken: string) | SignInFailed(message: string)

  /** What the provider answers to the user-attribute lookup. */
  datatype UserInfoResult = UserInfoFound(attributes: Attributes) | UserInfoMissing(message: string)

  /** What the handler shows. */
  datatype LoginOutcome =
    | InvalidInput(errors: seq<string>)
    | LockedOut
    | LoggedIn
    | LookupFailed(message: string)
    | SignInRejected(message: string, remainingAttempts: int)
  {
    /** The provider's sign-in was called on the way to this outcome. */
    predicate ContactedProvider() {
      LoggedIn? || LookupFailed? || SignInRejected?
    }
  }

  /** `_handle_login`: the outcome shown and the session bag afterwards. */
  function HandleLogin(s: SessionState, username: string, password: string,
                       signIn: SignInResult, lookup: UserInfoResult, now: Timestamp)
    : (r: (LoginOutcome, SessionState))
    ensures r.0.InvalidInput? <==> !ValidateUsername(username).isValid || !ValidatePassword(password).isValid
    ensures r.0.InvalidInput? ==> ReportsFieldErrors(r.0.errors, ValidateLoginForm(username, password))
    ensures r.0.InvalidInput? || r.0.LockedOut? || r.0.LookupFailed? ==> r.1 == s
    ensures r.0.ContactedProvider() ==> GetLoginAttempts(s) < MaxLoginAttempts
    ensures r.0.LoggedIn? ==> IsAuthenticated(r.1) && GetLoginAttempts(r.1) == 0
    ensures r.0.SignInRejected? ==>
              && GetLoginAttempts(r.1) == GetLoginAttempts(s) + 1
              && r.0.remainingAttempts == MaxLoginAttempts - GetLoginAttempts(r.1)
              && r.1 == IncrementLoginAttempts(s)
    ensures (&& ValidateUsername(username).isValid && ValidatePassword(password).isValid
             && GetLoginAttempts(s) < MaxLoginAttempts) ==> SignInAnswered(s, signIn, lookup, now, r)
  {
    var errors := FormErrors(ValidateLoginForm(username, password));
    if errors != [] then (InvalidInput(errors), s)
    else AttemptSignIn(s, signIn, lookup, now)
  }

  /** The handler once the form is valid: the lockout check, then the
      sign-in and the attribute lookup. */
  function AttemptSignIn(s: SessionState, signIn: SignInResult, lookup: UserInfoResult, now: Timestamp)
    : (r: (LoginOutcome, SessionState))
    ensures r.0.LockedOut? <==> GetLoginAttempts(s) >= MaxLoginAttempts
    ensures !r.0.InvalidInput?
    ensures r.0.LockedOut? || r.0.LookupFailed? ==> r.1 == s
    ensures r.0.ContactedProvider() ==> GetLoginAttempts(s) < MaxLoginAttempts
    ensures r.0.LoggedIn? ==> IsAuthenticated(r.1) && GetLoginAttempts(r.1) == 0
    ensures r.0.SignInRejected? ==>
              && GetLoginAttempts(r.1) == GetLoginAttempts(s) + 1
              && r.0.remainingAttempts == MaxLoginAttempts - GetLoginAttempts(r.1)
              && r.1 == IncrementLoginAttempts(s)
    ensures GetLoginAttempts(s) < MaxLoginAttempts ==> SignInAnswered(s, signIn, lookup, now, r)
  {
    if GetLoginAttempts(s) >= MaxLoginAttempts then (LockedOut, s)
    else
      match signIn
      case SignInSucceeded(token) =>
        (match lookup
         case UserInfoFound(info) => (LoggedIn, SetAuthData(s, token, info, now))
         case UserInfoMissing(message) => (LookupFailed(message), s))
      case SignInFailed(message) =>
        var s' := IncrementLoginAttempts(s);
        (SignInRejected(message, MaxLoginAttempts - GetLoginAttempts(s')), s')
  }

  /** Below the limit the outcome follows the provider's answers: a sign-in
      with its attributes found stores them with the token; one whose
      attributes are missing reports that and keeps the session; a refused
      sign-in shows the provider's message and counts one more attempt. */
  predicate SignInAnswered(s: SessionState, signIn: SignInResult, lookup: UserInfoResult, now: Timestamp,
                           r: (LoginOutcome, SessionState))
  {
    match signIn
    case SignInSucceeded(token) =>
      (match lookup
       case UserInfoFound(info) => r == (LoggedIn, SetAuthData(s, token, info, now))
       case UserInfoMissing(message) => r == (LookupFailed(message), s))
    case SignInFailed(message) =>
      r == (SignInRejected(message, MaxLoginAttempts - GetLoginAttempts(s) - 1), IncrementLoginAttempts(s))
  }

  /** A valid form goes straight on to the lockout check and the sign-in. */
  lemma ValidFormSignsIn(s: SessionState, username: string, password: string,
                         signIn: SignInResult, lookup: UserInfoResult, now: Timestamp)
    requires ValidateUsername(username).isValid && ValidatePassword(password).isValid
    ensures HandleLogin(s, username, password, signIn, lookup, now) == AttemptSignIn(s, signIn, lookup, now)
  {
  }

  /** Validation comes first: an invalid form is reported as such whatever
      the attempt counter says, and the provider is not contacted. */
  lemma ValidationBeforeLockout(s: SessionState, username: string, password: string,
                                signIn: SignInResult, lookup: UserInfoResult, now: Timestamp)
    requires !ValidateUsername(username).isValid || !ValidatePassword(password).isValid
    ensures var (outcome, s') := HandleLogin(s, username, password, signIn, lookup, now);
            outcome.InvalidInput? && outcome.errors != [] && !outcome.ContactedProvider() && s' == s
  {
  }

  /** At five or more attempts a valid form is refused without contacting the
      provider, and the session does not change. */
  lemma LockoutBlocksSignIn(s: SessionState, username: string, password: string,
                            signIn: SignInResult, lookup: UserInfoResult, now: Timestamp)
    requires ValidateUsername(username).isValid && ValidatePassword(password).isValid
    requires GetLoginAttempts(s) >= MaxLoginAttempts
    ensures HandleLogin(s, username, password, signIn, lookup, now) == (LockedOut, s)
  {
  }

  /** The attempt counter never passes five once it is at most five, and the
      remaining-attempts figure shown after a failure is never negative. */
  lemma AttemptsStayBounded(s: SessionState, username: string, password: string,
                            signIn: SignInResult, lookup: UserInfoResult, now: Timestamp)
    requires GetLoginAttempts(s) <= MaxLoginAttempts
    ensures var (outcome, s') := HandleLogin(s, username, password, signIn, lookup, now);
            GetLoginAttempts(s') <= MaxLoginAttempts
            && (outcome.SignInRejected? ==> outcome.remainingAttempts >= 0)
  {
  }

  /** A successful sign-in whose attribute lookup fails leaves the session,
      its authentication flag and its counter untouched. */
  lemma LookupFailureKeepsSession(s: SessionState, username: string, password: string,
                                  token: string, message: string, now: Timestamp)
    requires ValidateUsername(username).isValid && ValidatePassword(password).isValid
    requires GetLoginAttempts(s) < MaxLoginAttempts
    ensures HandleLogin(s, username, password, SignInSucceeded(token), UserInfoMissing(message), now)
         == (LookupFailed(message), s)
  {
  }

  /** `n` failed sign-ins in a row with a valid form (which, by
      `ValidFormSignsIn`, the handler passes to `AttemptSignIn`). */
  function FailRepeatedly(s: SessionState, message: string, lookup: UserInfoResult, now: Timestamp, n: nat)
    : SessionState
    decreases n
  {
    if n == 0 then s
    else FailRepeatedly(AttemptSignIn(s, SignInFailed(message), lookup, now).1, message, lookup, now, n - 1)
  }

  /** Failures accumulate up to the limit and stop there: from `a` attempts,
      `n` failures leave `min(a + n, 5)`. */
  lemma {:induction false} FailuresAccumulate(s: SessionState, message: string, lookup: UserInfoResult,
                                              now: Timestamp, n: nat)
    requires 0 <= GetLoginAttempts(s) <= MaxLoginAttempts
    ensures var a := GetLoginAttempts(s) + n;
            GetLoginAttempts(FailRepeatedly(s, message, lookup, now, n))
            == if a < MaxLoginAttempts then a else MaxLoginAttempts
  {
    FailRepeatedlyIterates(s, message, lookup, now, n);
    IteratedFailuresCount(s, n);
  }

  /** The session after one failed sign-in with a valid form: one more
      attempt below the limit, unchanged (locked out) at it. */
  function AfterFailure(s: SessionState): (r: SessionState)
    ensures var a := GetLoginAttempts(s); GetLoginAttempts(r) == if a < MaxLoginAttempts then a + 1 else a
  {
    if GetLoginAttempts(s) >= MaxLoginAttempts then s else IncrementLoginAttempts(s)
  }

  /** `AfterFailure` applied `n` times. */
  function AfterFailures(s: SessionState, n: nat): SessionState
    decreases n
  {
    if n == 0 then s else AfterFailures(AfterFailure(s), n - 1)
  }

  /** One failed sign-in leaves the session `AfterFailure` describes. */
  lemma FailedStep(s: SessionState, message: string, lookup: UserInfoResult, now: Timestamp)
    ensures AttemptSignIn(s, SignInFailed(message), lookup, now).1 == AfterFailure(s)
  {
  }

  /** Repeated failures are `AfterFailure` repeated. */
  lemma {:induction false} FailRepeatedlyIterates(s: SessionState, message: string, lookup: UserInfoResult,
                                                  now: Timestamp, n: nat)
    ensures FailRepeatedly(s, message, lookup, now, n) == AfterFailures(s, n)
    decreases n
  {
    if n > 0 {
      FailedStep(s, message, lookup, now);
      FailRepeatedlyIterates(AfterFailure(s), message, lookup, now, n - 1);
    }
  }

  /** From at most five attempts, `n` further failures leave `min(a + n, 5)`. */
  lemma {:induction false} IteratedFailuresCount(s: SessionState, n: nat)
    requires 0 <= GetLoginAttempts(s) <= MaxLoginAttempts
    ensures var a := GetLoginAttempts(s) + n;
            GetLoginAttempts(AfterFailures(s, n)) == if a < MaxLoginAttempts then a else MaxLoginAttempts
    decreases n
  {
    if n > 0 {
      IteratedFailuresCount(AfterFailure(s), n - 1);
    }
  }

  /** Five failed sign-ins in a row from a fresh session block the sixth
      attempt locally, whatever the provider would have said. */
  lemma SixthAttemptBlocked(username: string, password: string, message: string,
                            lookup: UserInfoResult, now: Timestamp, signIn: SignInResult)
    requires ValidateUsername(username).isValid && ValidatePassword(password).isValid
    ensures var s := FailRepeatedly(InitSession(EmptyBag), message, lookup, now, 5);
            HandleLogin(s, username, password, signIn, lookup, now).0 == LockedOut
  {
    var s := FailRepeatedly(InitSession(EmptyBag), message, lookup, now, 5);
    FailuresAccumulate(InitSession(EmptyBag), message, lookup, now, 5);
    ValidFormSignsIn(s, username, password, signIn, lookup, now);
  }
}
