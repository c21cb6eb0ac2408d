/**
 * The login form's schema: an e-mail field that is required and must look
 * like an e-mail address, and a password field that is required and at
 * least 8 characters long.
 *
 * The form library hands the schema `undefined` for a field left as the
 * empty string, and every rule except "required" lets an undefined value
 * through; the violation sets below follow that.  What counts as an e-mail
 * address is the validation library's own pattern, taken here as the
 * parameter `isEmail`.
 */
module ValidationSchema {

  datatype LoginForm = LoginForm(email: string, password: string)

  datatype LoginRule = EmailFormat | EmailRequired | PasswordMinLength | PasswordRequired

  const MinPasswordLength := 8

  /** The rules of `loginSchema` that the form's values break. */
  function LoginViolations(f: LoginForm, isEmail: string -> bool): (v: set<LoginRule>)
    ensures EmailRequired in v <==> f.email == ""
    ensures PasswordRequired in v <==> f.password == ""
    ensures v == {} <==> f.email != "" && isEmail(f.email) && |f.password| >= MinPasswordLength
  {
    (if f.email == "" then {EmailRequired} else {})
    + (if f.email != "" && !isEmail(f.email) then {EmailFormat} else {})
    + (if f.password == "" then {PasswordRequired} else {})
    + (if f.password != "" && |f.password| < MinPasswordLength then {PasswordMinLength} else {})
  }

  /** The password rule on its own: required, at least 8 characters, nothing more. */
  predicate PasswordAccepted(password: string)
  {
    password != "" && |password| >= MinPasswordLength
  }

  /** A form is submitted exactly when it breaks no rule. */
  lemma LoginAcceptedIff(f: LoginForm, isEmail: string -> bool)
    ensures LoginViolations(f, isEmail) == {} <==> f.email != "" && isEmail(f.email) && PasswordAccepted(f.password)
  {
  }

  /** An empty e-mail or an empty password is rejected. */
  lemma EmptyFieldsRejected(f: LoginForm, isEmail: string -> bool)
    requires f.email == "" || f.password == ""
    ensures LoginViolations(f, isEmail) != {}
  {
  }

  /** An address that is not an e-mail is rejected for its format. */
  lemma MalformedEmailRejected(f: LoginForm, isEmail: string -> bool)
    requires f.email != "" && !isEmail(f.email)
    ensures EmailFormat in LoginViolations(f, isEmail)
  {
  }

  /** A non-empty password shorter than 8 characters is rejected for its length. */
  lemma ShortPasswordRejected(f: LoginForm, isEmail: string -> bool)
    requires 0 < |f.password| < MinPasswordLength
    ensures PasswordMinLength in LoginViolations(f, isEmail)
    ensures LoginViolations(f, isEmail) != {}
  {
  }

  /** Any password of 8 characters or more passes, whatever characters it holds. */
  lemma LongPasswordAccepted(password: string)
    requires |password| >= MinPasswordLength
    ensures PasswordAccepted(password)
  {
  }
}
