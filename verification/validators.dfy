/**
 * The admin console's input validators: length rules on usernames and
 * passwords, and the shape of an email address.
 */
module Validators {
  import opened Wrappers
  import opened Text

  /** `ValidationResult(is_valid, message)`; a well-formed result carries a
      message exactly when it is invalid. */
  datatype ValidationResult = ValidationResult(isValid: bool, message: Option<string>) {
    predicate WellFormed() {
      isValid <==> message.None?
    }
  }

  function Valid(): ValidationResult {
    ValidationResult(true, None)
  }

  function Invalid(message: string): ValidationResult {
    ValidationResult(false, Some(message))
  }

  const UsernameMissing: string := "사용자명을 입력해주세요."
  const UsernameTooShort: string := "사용자명은 3자 이상이어야 합니다."
  const UsernameTooLong: string := "사용자명은 50자 이하여야 합니다."
  const PasswordMissing: string := "비밀번호를 입력해주세요."
  const PasswordTooShort: string := "비밀번호는 8자 이상이어야 합니다."
  const EmailMissing: string := "이메일을 입력해주세요."
  const EmailMalformed: string := "올바른 이메일 형식이 아닙니다."

  const MinUsernameLength: int := 3
  const MaxUsernameLength: int := 50
  const MinPasswordLength: int := 8

  /** `validate_username`: after stripping surrounding whitespace the name
      must have 3 to 50 characters; an empty or all-whitespace name gets its
      own message. */
  function ValidateUsername(username: string): (r: ValidationResult)
    ensures r.WellFormed()
    ensures r.isValid <==> MinUsernameLength <= |Strip(username)| <= MaxUsernameLength
    ensures AllSpace(username) ==> r == Invalid(UsernameMissing)
    ensures !AllSpace(username) && |Strip(username)| < MinUsernameLength ==> r == Invalid(UsernameTooShort)
    ensures |Strip(username)| > MaxUsernameLength ==> r == Invalid(UsernameTooLong)
  {
    if username == "" || Strip(username) == "" then Invalid(UsernameMissing)
    else
      var name := Strip(username);
      if |name| < MinUsernameLength then Invalid(UsernameTooShort)
      else if |name| > MaxUsernameLength then Invalid(UsernameTooLong)
      else Valid()
  }

  /** `validate_password`: invalid exactly when shorter than 8 characters
      (the empty password with its own message); not stripped, no upper
      bound. */
  function ValidatePassword(password: string): (r: ValidationResult)
    ensures r.WellFormed()
    ensures r.isValid <==> |password| >= MinPasswordLength
    ensures password == "" ==> r == Invalid(PasswordMissing)
    ensures 0 < |password| < MinPasswordLength ==> r == Invalid(PasswordTooShort)
  {
    if password == "" then Invalid(PasswordMissing)
    else if |password| < MinPasswordLength then Invalid(PasswordTooShort)
    else Valid()
  }

  // ------------------------------------------------------------ email shape

  /** `[a-zA-Z]` */
  predicate IsAsciiLetter(c: char) {
    ('a' <= c <= 'z') || ('A' <= c <= 'Z')
  }

  predicate IsAsciiAlnum(c: char) {
    IsAsciiLetter(c) || ('0' <= c <= '9')
  }

  /** `[a-zA-Z0-9._%+-]`, the local part's characters. */
  predicate IsLocalChar(c: char) {
    IsAsciiAlnum(c) || c == '.' || c == '_' || c == '%' || c == '+' || c == '-'
  }

  /** `[a-zA-Z0-9.-]`, the domain's characters. */
  predicate IsDomainChar(c: char) {
    IsAsciiAlnum(c) || c == '.' || c == '-'
  }

  predicate AllLocal(s: string) {
    forall i :: 0 <= i < |s| ==> IsLocalChar(s[i])
  }

  predicate AllDomain(s: string) {
    forall i :: 0 <= i < |s| ==> IsDomainChar(s[i])
  }

  predicate AllLetters(s: string) {
    forall i :: 0 <= i < |s| ==> IsAsciiLetter(s[i])
  }

  /** `s` is in the language of `[a-zA-Z0-9._%+-]+@[a-zA-Z0-9.-]+\.[a-zA-Z]{2,}`:
      some split `local @ domain . tld` exists. This is the meaning of the
      pattern, with no matching procedure. */
  ghost predicate MatchesEmailPattern(s: string) {
    exists at, dot :: 0 < at && at + 1 < dot && dot + 3 <= |s|
      && s[at] == '@' && s[dot] == '.'
      && AllLocal(s[..at]) && AllDomain(s[at + 1..dot]) && AllLetters(s[dot + 1..])
  }

  /** The pattern checked by a procedure: the `@` must be the first one (the
      local part cannot hold `@`), and the top-level domain starts after the
      last `.` (a letters-only tail holds no `.`). */
  predicate EmailShape(s: string) {
    match IndexOf(s, '@')
    case None => false
    case Some(at) =>
      at > 0 && AllLocal(s[..at]) &&
      var rest := s[at + 1..];
      match LastIndexOf(rest, '.')
      case None => false
      case Some(k) => k > 0 && AllDomain(rest[..k]) && |rest| - k - 1 >= 2 && AllLetters(rest[k + 1..])
  }

  /** The procedure accepts exactly the strings the pattern describes. */
  lemma {:induction false} EmailShapeMatchesPattern(s: string)
    ensures EmailShape(s) <==> MatchesEmailPattern(s)
  {
    if EmailShape(s) {
      ShapeHasSplit(s);
    }
    if MatchesEmailPattern(s) {
      var at, dot :| 0 < at && at + 1 < dot && dot + 3 <= |s|
        && s[at] == '@' && s[dot] == '.'
        && AllLocal(s[..at]) && AllDomain(s[at + 1..dot]) && AllLetters(s[dot + 1..]);
      SplitHasShape(s, at, dot);
    }
  }

  /** A string the procedure accepts has the split the pattern asks for. */
  lemma {:induction false} ShapeHasSplit(s: string)
    requires EmailShape(s)
    ensures MatchesEmailPattern(s)
  {
    var at := IndexOf(s, '@').value;
    var rest := s[at + 1..];
    var k := LastIndexOf(rest, '.').value;
    var dot := at + 1 + k;
    assert s[at + 1..dot] == rest[..k];
    assert s[dot + 1..] == rest[k + 1..];
    assert s[dot] == rest[k];
  }

  /** A split as the pattern asks for is the one the procedure finds. */
  lemma {:induction false} SplitHasShape(s: string, at: nat, dot: nat)
    requires 0 < at && at + 1 < dot && dot + 3 <= |s|
    requires s[at] == '@' && s[dot] == '.'
    requires AllLocal(s[..at]) && AllDomain(s[at + 1..dot]) && AllLetters(s[dot + 1..])
    ensures IndexOf(s, '@') == Some(at) && LastIndexOf(s[at + 1..], '.') == Some(dot - at - 1)
    ensures EmailShape(s)
  {
    FirstAt(s, at);
    var rest := s[at + 1..];
    LastDot(rest, dot - at - 1);
    assert rest[..dot - at - 1] == s[at + 1..dot];
    assert rest[dot - at..] == s[dot + 1..];
  }

  /** An `@` preceded only by local-part characters is the first `@`. */
  lemma {:induction false} FirstAt(s: string, at: nat)
    requires at < |s| && s[at] == '@' && AllLocal(s[..at])
    ensures IndexOf(s, '@') == Some(at)
  {
  }

  /** A `.` followed only by letters is the last `.`. */
  lemma {:induction false} LastDot(s: string, dot: nat)
    requires dot < |s| && s[dot] == '.' && AllLetters(s[dot + 1..])
    ensures LastIndexOf(s, '.') == Some(dot)
  {
  }

  /** `validate_email`: the stripped address must be non-empty and match the
      pattern as a whole (`re.match` anchored by `^` and `$`; no trailing
      newline survives stripping). */
  function ValidateEmail(email: string): (r: ValidationResult)
    ensures r.WellFormed()
    ensures r.isValid <==> MatchesEmailPattern(Strip(email))
    ensures AllSpace(email) ==> r == Invalid(EmailMissing)
    ensures !AllSpace(email) && !r.isValid ==> r == Invalid(EmailMalformed)
  {
    var address := Strip(email);
    EmailShapeMatchesPattern(address);
    if email == "" || address == "" then Invalid(EmailMissing)
    else if !EmailShape(address) then Invalid(EmailMalformed)
    else Valid()
  }

  /** `validate_login_form`'s two results, keyed 'username' and 'password'. */
  datatype LoginFormResults = LoginFormResults(username: ValidationResult, password: ValidationResult)

  /** `validate_login_form`: each field is validated on its own, so the
      username's verdict does not depend on the password or the other way
      round. */
  function ValidateLoginForm(username: string, password: string): (r: LoginFormResults)
    ensures r.username.WellFormed() && r.password.WellFormed()
    ensures r.username.isValid <==> MinUsernameLength <= |Strip(username)| <= MaxUsernameLength
    ensures r.password.isValid <==> |password| >= MinPasswordLength
  {
    LoginFormResults(ValidateUsername(username), ValidatePassword(password))
  }

  /** `errors` holds one message per invalid field, each field's own, the
      username's first and the password's last. */
  predicate ReportsFieldErrors(errors: seq<string>, results: LoginFormResults) {
    && |errors| == (if results.username.isValid then 0 else 1) + (if results.password.isValid then 0 else 1)
    && (!results.username.isValid ==> results.username.message == Some(errors[0]))
    && (!results.password.isValid ==> results.password.message == Some(errors[|errors| - 1]))
  }

  /** The messages `_handle_login` shows, username's first, one for each
      invalid field. */
  function FormErrors(results: LoginFormResults): (errors: seq<string>)
    requires results.username.WellFormed() && results.password.WellFormed()
    ensures ReportsFieldErrors(errors, results)
    ensures errors == [] <==> results.username.isValid && results.password.isValid
  {
    (if results.username.isValid then [] else [results.username.message.value])
    + (if results.password.isValid then [] else [results.password.message.value])
  }

  /** A concrete address the pattern accepts, split as `a @ b . co`. */
  lemma EmailExampleAccepted()
    ensures MatchesEmailPattern("a@b.co")
  {
    var s := "a@b.co";
    assert s[1] == '@' && s[3] == '.';
    assert AllLocal(s[..1]) && AllDomain(s[2..3]) && AllLetters(s[4..]);
  }

  /** A concrete address the pattern refuses: a top-level domain needs two
      letters. */
  lemma EmailExampleRejected()
    ensures !ValidateEmail("a@b.c").isValid
  {
    StripUnchanged("a@b.c");
    assert IndexOf("a@b.c", '@') == Some(1);
    assert LastIndexOf("b.c", '.') == Some(1);
  }
}
