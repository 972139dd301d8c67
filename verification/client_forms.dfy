/** The client-side checks of the registration and login forms
    (Frontend/src/pages/auth/Register.jsx and Login.jsx): the field validators and
    the decision `handleSubmit` takes between showing an error and calling the
    backend. The React state updates around them are not modelled. */
module ClientForms {
  import opened Wrappers
  import opened Text
  import opened EmailPattern
  import Auth

  const MsgEmailRequired := "Email is required"
  const MsgInvalidEmail := "Please enter a valid email address"
  const MsgPasswordsDiffer := "Passwords do not match"

  /** `validateEmail`, the same in both forms: blank, malformed or accepted (""). */
  function ValidateEmail(value: string): (msg: string)
    ensures msg == "" <==> MatchesEmailRegex(Trim(value))
    ensures msg == MsgEmailRequired <==> forall i :: 0 <= i < |value| ==> IsWhitespace(value[i])
    ensures msg in {"", MsgEmailRequired, MsgInvalidEmail}
  {
    TrimEmptyIffBlank(value);
    EmailRegexTestCorrect(Trim(value));
    if Trim(value) == "" then MsgEmailRequired
    else if !EmailRegexTest(Trim(value)) then MsgInvalidEmail
    else ""
  }

  /** `handleSubmit` validates the already trimmed address: the same answer. */
  lemma {:induction false} ValidateEmailOfTrimmed(value: string)
    ensures ValidateEmail(Trim(value)) == ValidateEmail(value)
  {
    TrimIdempotent(value);
  }

  /** `validatePassword` in Register.jsx: the backend's ordered checks without the
      upper length bound; "" when the password is accepted. */
  function ValidatePassword(password: string): (msg: string)
    ensures msg == "" <==> Auth.MinPasswordLength <= |password| && Auth.HasAllClasses(password)
    ensures msg in {"", Auth.MsgPasswordRequired, Auth.MsgPasswordTooShort, Auth.MsgNoUppercase,
                    Auth.MsgNoLowercase, Auth.MsgNoDigit, Auth.MsgNoSpecial}
    ensures msg != "" ==> Auth.ValidatePasswordStrength(Some(password)) == Auth.Rejected(msg)
  {
    if password == "" then Auth.MsgPasswordRequired
    else if |password| < Auth.MinPasswordLength then Auth.MsgPasswordTooShort
    else if !Auth.HasUpper(password) then Auth.MsgNoUppercase
    else if !Auth.HasLower(password) then Auth.MsgNoLowercase
    else if !Auth.HasDigit(password) then Auth.MsgNoDigit
    else if !Auth.HasSpecial(password) then Auth.MsgNoSpecial
    else ""
  }

  /** What submitting a form does: show one message, or send the request. */
  datatype Submission = ShowError(message: string) | Send(email: string, password: string)

  /** `handleSubmit` in Register.jsx. The e-mail error wins over the password error,
      which wins over the confirmation mismatch; the request carries the trimmed
      address and the password as typed. */
  function RegisterSubmit(email: string, password: string, confirmPassword: string): (d: Submission)
    ensures d.Send? <==> && MatchesEmailRegex(Trim(email))
                         && Auth.MinPasswordLength <= |password| && Auth.HasAllClasses(password)
                         && password == confirmPassword
    ensures d.Send? ==> d.email == Trim(email) && d.password == password
    ensures ValidateEmail(email) != "" ==> d == ShowError(ValidateEmail(email))
    ensures ValidateEmail(email) == "" && ValidatePassword(password) != "" ==> d == ShowError(ValidatePassword(password))
    ensures (ValidateEmail(email) == "" && ValidatePassword(password) == "" && password != confirmPassword)
              ==> d == ShowError(MsgPasswordsDiffer)
  {
    var trimmedEmail := Trim(email);
    ValidateEmailOfTrimmed(email);
    var emailError := ValidateEmail(trimmedEmail);
    var passwordError := ValidatePassword(password);
    var confirmError := if password != confirmPassword then MsgPasswordsDiffer else "";
    if emailError != "" then ShowError(emailError)
    else if passwordError != "" then ShowError(passwordError)
    else if confirmError != "" then ShowError(confirmError)
    else Send(trimmedEmail, password)
  }

  /** `handleSubmit` in Login.jsx. The e-mail error wins over the blank-password
      error; the password is sent untrimmed. */
  function LoginSubmit(email: string, password: string): (d: Submission)
    ensures d.Send? <==> MatchesEmailRegex(Trim(email)) && Trim(password) != ""
    ensures d.Send? ==> d.email == Trim(email) && d.password == password
    ensures ValidateEmail(email) != "" ==> d == ShowError(ValidateEmail(email))
    ensures ValidateEmail(email) == "" && Trim(password) == "" ==> d == ShowError(Auth.MsgPasswordRequired)
  {
    var trimmedEmail := Trim(email);
    ValidateEmailOfTrimmed(email);
    var emailError := ValidateEmail(trimmedEmail);
    var passwordError := if Trim(password) == "" then Auth.MsgPasswordRequired else "";
    if emailError != "" then ShowError(emailError)
    else if passwordError != "" then ShowError(passwordError)
    else Send(trimmedEmail, password)
  }

  /** Every password the backend accepts passes the form. */
  lemma {:induction false} BackendAcceptedPasswordPassesForm(p: string)
    requires Auth.ValidatePasswordStrength(Some(p)).Accepted?
    ensures ValidatePassword(p) == ""
  {
  }

  /** A password the form accepts is refused by the backend only for its length. */
  lemma {:induction false} FormPasswordAcceptedByBackendUpToCap(p: string)
    requires ValidatePassword(p) == ""
    ensures Auth.ValidatePasswordStrength(Some(p)).Accepted? <==> |p| <= Auth.MaxPasswordLength
    ensures |p| > Auth.MaxPasswordLength ==> Auth.ValidatePasswordStrength(Some(p)) == Auth.Rejected(Auth.MsgPasswordTooLong)
  {
  }

  /** The form has no upper length bound: a 129-character password passes the form
      and is refused by the backend. */
  lemma {:induction false} FormAcceptsPasswordBackendRefuses()
    ensures exists p :: ValidatePassword(p) == ""
                        && Auth.ValidatePasswordStrength(Some(p)) == Auth.Rejected(Auth.MsgPasswordTooLong)
  {
    var p := "Aa1!" + seq(125, _ => 'a');
    assert Auth.IsUpperAscii(p[0]) && Auth.IsLowerAscii(p[1]) && Auth.IsDigitAscii(p[2]) && Auth.IsSpecial(p[3]);
    assert ValidatePassword(p) == "";
  }

  /** The form accepts an address exactly when the backend's format check accepts the
      trimmed address the form sends. */
  lemma {:induction false} FormEmailAgreesWithBackend(value: string)
    ensures ValidateEmail(value) == "" <==> Auth.ValidateEmailFormat(Some(Trim(value)))
  {
    TrimIdempotent(value);
    EmailRegexTestCorrect(Trim(value));
    EmailRegexTestCorrect(ToLower(Trim(value)));
    EmailRegexTestIgnoresCase(Trim(value));
  }

  /** A registration the form sends passes the backend's checks, unless the password
      is over 128 characters or the address over 255. */
  lemma {:induction false} RegisterFormRequestPassesBackend(email: string, password: string, confirmPassword: string)
    ensures var d := RegisterSubmit(email, password, confirmPassword);
            d.Send? && |password| <= Auth.MaxPasswordLength && |Trim(email)| <= Auth.MaxEmailLength ==>
              Auth.ValidateRegistration(Some(d.email), Some(d.password)).Ok?
  {
    var d := RegisterSubmit(email, password, confirmPassword);
    if d.Send? && |password| <= Auth.MaxPasswordLength && |Trim(email)| <= Auth.MaxEmailLength {
      var t := Trim(email);
      assert d.email == t && d.password == password && MatchesEmailRegex(t) && Auth.IsStrongPassword(password);
      TrimIdempotent(email);
      NormalisedAddressMatches(t);
      RegistrationChecksPass(d.email, d.password);
    }
  }

  /** The backend's registration checks pass for a well-formed, short enough address
      and a strong password. */
  lemma {:induction false} RegistrationChecksPass(e: string, p: string)
    ensures MatchesEmailRegex(ToLower(Trim(e))) && |ToLower(Trim(e))| <= Auth.MaxEmailLength && Auth.IsStrongPassword(p) ==>
              Auth.ValidateRegistration(Some(e), Some(p)).Ok?
  {
  }

  /** Lower-casing a well-formed address keeps it well formed. */
  lemma {:induction false} NormalisedAddressMatches(t: string)
    requires MatchesEmailRegex(t)
    ensures MatchesEmailRegex(ToLower(t))
  {
    EmailRegexTestCorrect(t);
    EmailRegexTestCorrect(ToLower(t));
    EmailRegexTestIgnoresCase(t);
  }

  /** A login the form sends passes the backend's checks. */
  lemma {:induction false} LoginFormRequestPassesBackend(email: string, password: string)
    ensures var d := LoginSubmit(email, password);
            d.Send? ==> Auth.ValidateLogin(Some(d.email), Some(d.password)).Ok?
  {
    if LoginSubmit(email, password).Send? {
      var t := Trim(email);
      TrimIdempotent(email);
      EmailRegexTestCorrect(t);
      EmailRegexTestCorrect(ToLower(t));
      EmailRegexTestIgnoresCase(t);
    }
  }
}
