/**
 * The change-password form: its schema (current password required; new
 * password of at least 8 characters with a lower-case letter, an upper-case
 * letter, a digit and a special character; confirmation equal to the new
 * password or to the text "null") and its submit handler, which flags
 * success and clears the fields.
 */
module ChangePassword {
  import opened Text
  import ValidationSchema

  datatype PasswordForm = PasswordForm(currentPassword: string, newPassword: string, confirmPassword: string)

  const EmptyForm := PasswordForm("", "", "")

  /** The second value the confirmation accepts: the four-letter text, not JavaScript's null. */
  const NullText := "null"

  const MinLength := 8

  predicate HasLower(s: string) { exists i :: 0 <= i < |s| && IsLowerAscii(s[i]) }
  predicate HasUpper(s: string) { exists i :: 0 <= i < |s| && IsUpperAscii(s[i]) }
  predicate HasDigit(s: string) { exists i :: 0 <= i < |s| && IsDigitAscii(s[i]) }

  /** A character outside `[a-zA-Z0-9]`. */
  predicate IsSpecial(c: char) { !IsLowerAscii(c) && !IsUpperAscii(c) && !IsDigitAscii(c) }
  predicate HasSpecial(s: string) { exists i :: 0 <= i < |s| && IsSpecial(s[i]) }

  datatype PasswordRule =
    | CurrentRequired
    | NewRequired | NewMinLength | NewLowercase | NewUppercase | NewDigit | NewSpecial
    | ConfirmRequired | ConfirmMatches

  /** The password policy, as a whole. */
  predicate NewPasswordPolicy(p: string)
  {
    |p| >= MinLength && HasLower(p) && HasUpper(p) && HasDigit(p) && HasSpecial(p)
  }

  /** The rules of `ChangePasswordSchema` the form breaks (an empty field breaks only "required"). */
  function Violations(f: PasswordForm): (v: set<PasswordRule>)
    ensures v == {} <==>
      && f.currentPassword != ""
      && f.newPassword != "" && NewPasswordPolicy(f.newPassword)
      && f.confirmPassword != "" && (f.confirmPassword == f.newPassword || f.confirmPassword == NullText)
  {
    var n := f.newPassword;
    var present := n != "";
    (if f.currentPassword == "" then {CurrentRequired} else {})
    + (if !present then {NewRequired} else {})
    + (if present && |n| < MinLength then {NewMinLength} else {})
    + (if present && !HasLower(n) then {NewLowercase} else {})
    + (if present && !HasUpper(n) then {NewUppercase} else {})
    + (if present && !HasDigit(n) then {NewDigit} else {})
    + (if present && !HasSpecial(n) then {NewSpecial} else {})
    + (if f.confirmPassword == "" then {ConfirmRequired} else {})
    + (if f.confirmPassword != "" && f.confirmPassword != n && f.confirmPassword != NullText
       then {ConfirmMatches} else {})
  }

  predicate Accepted(f: PasswordForm) { Violations(f) == {} }

  /** A new password shorter than 8 characters is always rejected. */
  lemma ShortNewPasswordRejected(f: PasswordForm)
    requires |f.newPassword| < MinLength
    ensures !Accepted(f)
    ensures f.newPassword != "" ==> NewMinLength in Violations(f)
  {
  }

  /** A new password lacking any of the four character classes is rejected. */
  lemma MissingClassRejected(f: PasswordForm)
    requires f.newPassword != ""
    requires !HasLower(f.newPassword) || !HasUpper(f.newPassword) || !HasDigit(f.newPassword) || !HasSpecial(f.newPassword)
    ensures !Accepted(f)
  {
  }

  /** Each of the three fields rejects the empty string. */
  lemma EmptyFieldsRejected(f: PasswordForm)
    ensures f.currentPassword == "" ==> CurrentRequired in Violations(f)
    ensures f.newPassword == "" ==> NewRequired in Violations(f)
    ensures f.confirmPassword == "" ==> ConfirmRequired in Violations(f)
  {
  }

  /** Given an acceptable new password, the confirmation passes iff it is that password or "null". */
  lemma ConfirmationRule(f: PasswordForm)
    requires f.currentPassword != "" && f.newPassword != "" && NewPasswordPolicy(f.newPassword)
    ensures Accepted(f) <==> f.confirmPassword == f.newPassword || f.confirmPassword == NullText
  {
  }

  /** The text "null" is accepted as confirmation of any acceptable password, matching or not. */
  lemma NullConfirmationAccepted(current: string, newPassword: string)
    requires current != "" && newPassword != "" && NewPasswordPolicy(newPassword)
    ensures Accepted(PasswordForm(current, newPassword, NullText))
  {
  }

  /** Concretely: "Abcdef1!" confirmed by "null" passes, though the two differ. */
  lemma NullConfirmationExample()
    ensures Accepted(PasswordForm("old", "Abcdef1!", NullText))
  {
    var p := "Abcdef1!";
    assert IsLowerAscii(p[1]) && IsUpperAscii(p[0]) && IsDigitAscii(p[6]) && IsSpecial(p[7]);
    NullConfirmationAccepted("old", p);
  }

  /** The current password is checked for presence only: any non-empty text will do. */
  lemma CurrentPasswordOnlyRequired(f: PasswordForm, other: string)
    requires other != ""
    ensures Accepted(f.(currentPassword := other)) <==> Accepted(f.(currentPassword := "x"))
  {
  }

  /** Every new password this form accepts would also pass the login form's password rule. */
  lemma PolicyStricterThanLogin(f: PasswordForm)
    requires Accepted(f)
    ensures ValidationSchema.PasswordAccepted(f.newPassword)
  {
  }

  /** ... but not conversely: eight lower-case letters pass at login and fail here. */
  lemma LoginRuleIsWeaker()
    ensures ValidationSchema.PasswordAccepted("aaaaaaaa")
    ensures !NewPasswordPolicy("aaaaaaaa")
  {
    var p := "aaaaaaaa";
    assert forall i :: 0 <= i < |p| ==> !IsUpperAscii(p[i]);
  }

  datatype Field = Current | New | Confirm

  /**
   * The form's live state: the three field values and the success flag
   * (`changeSuccess`), which stays set once a change went through.
   */
  class ChangePasswordForm {
    var values: PasswordForm
    var changeSuccess: bool

    constructor ()
      ensures values == EmptyForm && !changeSuccess
    {
      values := EmptyForm;
      changeSuccess := false;
    }

    /** Typing into one field replaces that field's value only. */
    method Edit(field: Field, text: string)
      modifies this
      ensures changeSuccess == old(changeSuccess)
      ensures values == match field
        case Current => old(values).(currentPassword := text)
        case New => old(values).(newPassword := text)
        case Confirm => old(values).(confirmPassword := text)
    {
      match field
      case Current => values := values.(currentPassword := text);
      case New => values := values.(newPassword := text);
      case Confirm => values := values.(confirmPassword := text);
    }

    /**
     * Submitting runs the schema; only when it passes does `onSubmit` run,
     * which sets the success flag and resets the three fields to "".
     */
    method Submit() returns (submitted: bool)
      modifies this
      ensures submitted <==> Accepted(old(values))
      ensures submitted ==> values == EmptyForm && changeSuccess
      ensures !submitted ==> values == old(values) && changeSuccess == old(changeSuccess)
    {
      submitted := Violations(values) == {};
      if submitted {
        changeSuccess := true;
        values := EmptyForm;
      }
    }
  }
}
