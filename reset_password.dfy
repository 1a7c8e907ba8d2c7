/**
 * reset-password.js: the form that sets a new password after the one-time
 * code was verified. It shows which strength requirements the new password
 * meets, warns while typing when the confirmation differs, and validates the
 * form before sending the reset request.
 */
module ResetPassword {
  import opened Common

  const MinLength := 8
  const MsgNewRequired := "New password is required"
  const MsgConfirmRequired := "Please confirm your password"
  const MsgMismatch := "Passwords do not match"
  const MsgTooWeak := "Password does not meet all requirements"

  // ---------------------------------------------------------------- strength

  /** `/[A-Z]/.test(p)` */
  predicate HasUpper(p: string) { exists i :: 0 <= i < |p| && IsUpperLetter(p[i]) }
  /** `/[a-z]/.test(p)` */
  predicate HasLower(p: string) { exists i :: 0 <= i < |p| && IsLowerLetter(p[i]) }
  /** `/[0-9]/.test(p)` */
  predicate HasDigit(p: string) { exists i :: 0 <= i < |p| && IsDigit(p[i]) }

  /** isPasswordStrong: at least eight characters with an upper-case letter, a lower-case letter and a digit. */
  predicate IsPasswordStrong(p: string): (r: bool)
    ensures r <==> MetCount(RequirementsOf(p)) == 4
    ensures r ==> |p| >= MinLength && p != ""
  {
    |p| >= MinLength && HasUpper(p) && HasLower(p) && HasDigit(p)
  }

  /** The four requirements validatePasswordStrength ticks off. */
  datatype Requirements = Requirements(length: bool, uppercase: bool, lowercase: bool, number: bool)

  function RequirementsOf(p: string): Requirements {
    Requirements(|p| >= MinLength, HasUpper(p), HasLower(p), HasDigit(p))
  }

  function Count(b: bool): nat { if b then 1 else 0 }

  /** `Object.values(requirements).filter(v => v).length` */
  function MetCount(r: Requirements): (n: nat)
    ensures n <= 4
    ensures n == 4 <==> r.length && r.uppercase && r.lowercase && r.number
  {
    Count(r.length) + Count(r.uppercase) + Count(r.lowercase) + Count(r.number)
  }

  datatype Strength = Weak | Medium | Strong

  /** updateStrengthBar: two or fewer requirements met is weak, three is medium, four is strong. */
  function StrengthOf(r: Requirements): (s: Strength)
    ensures s == Strong <==> r.length && r.uppercase && r.lowercase && r.number
    ensures s == Weak <==> MetCount(r) <= 2
    ensures s == Medium <==> MetCount(r) == 3
  {
    var met := MetCount(r);
    if met <= 2 then Weak else if met == 3 then Medium else Strong
  }

  /** The bar shows "strong" exactly for the passwords the submit check accepts as strong. */
  lemma StrongBarIffStrong(p: string)
    ensures StrengthOf(RequirementsOf(p)) == Strong <==> IsPasswordStrong(p)
  {
  }

  /** The bar is medium exactly when one requirement is missing. */
  lemma MediumBarIffOneMissing(p: string)
    ensures StrengthOf(RequirementsOf(p)) == Medium <==> MetCount(RequirementsOf(p)) == 3
  {
  }

  /** Typing more characters never takes a met requirement away, so the bar never drops. */
  lemma AppendingKeepsRequirements(p: string, q: string)
    ensures var a, b := RequirementsOf(p), RequirementsOf(p + q);
            (a.length ==> b.length) && (a.uppercase ==> b.uppercase)
            && (a.lowercase ==> b.lowercase) && (a.number ==> b.number)
            && MetCount(a) <= MetCount(b)
  {
    if HasUpper(p) {
      var i :| 0 <= i < |p| && IsUpperLetter(p[i]);
      assert (p + q)[i] == p[i];
    }
    if HasLower(p) {
      var i :| 0 <= i < |p| && IsLowerLetter(p[i]);
      assert (p + q)[i] == p[i];
    }
    if HasDigit(p) {
      var i :| 0 <= i < |p| && IsDigit(p[i]);
      assert (p + q)[i] == p[i];
    }
  }

  // ---------------------------------------------------------------- messages while typing

  /**
   * The confirmation message both input handlers set: a mismatch warning when the
   * confirmation is non-empty and differs from the new password, untrimmed.
   */
  function LiveMismatch(newPassword: string, confirmPassword: string): (m: string)
    ensures m == MsgMismatch <==> confirmPassword != "" && newPassword != confirmPassword
    ensures m == "" || m == MsgMismatch
  {
    if confirmPassword != "" && newPassword != confirmPassword then MsgMismatch else ""
  }

  // ---------------------------------------------------------------- submitting

  /** The submit handler's verdict: an error under one of the two fields, or the password to send. */
  datatype SubmitOutcome =
    | NewPasswordError(message: string)
    | ConfirmPasswordError(message: string)
    | Send(newPassword: string)

  /**
   * The submit handler's checks, in order, on the trimmed field values. The form
   * sends exactly the strong passwords that both fields hold, up to surrounding
   * white space.
   */
  function ValidateSubmit(newValue: string, confirmValue: string): (r: SubmitOutcome)
    ensures r.Send? <==> Trim(newValue) == Trim(confirmValue) && IsPasswordStrong(Trim(newValue))
    ensures r.Send? ==> r.newPassword == Trim(newValue) && r.newPassword == Trim(confirmValue)
    ensures r.NewPasswordError? ==> r.message == MsgNewRequired || r.message == MsgTooWeak
    ensures r.ConfirmPasswordError? ==> r.message == MsgConfirmRequired || r.message == MsgMismatch
    ensures r == ConfirmPasswordError(MsgMismatch) ==> Trim(newValue) != Trim(confirmValue)
  {
    var newPassword := Trim(newValue);
    var confirmPassword := Trim(confirmValue);
    if newPassword == "" then NewPasswordError(MsgNewRequired)
    else if confirmPassword == "" then ConfirmPasswordError(MsgConfirmRequired)
    else if newPassword != confirmPassword then ConfirmPasswordError(MsgMismatch)
    else if !IsPasswordStrong(newPassword) then NewPasswordError(MsgTooWeak)
    else Send(newPassword)
  }

  /** Fields that are equal as typed never get the mismatch error on submit. */
  lemma AgreedFieldsNeverMismatch(value: string)
    ensures ValidateSubmit(value, value) != ConfirmPasswordError(MsgMismatch)
  {
  }

  /** A blank new password is reported first, whatever the confirmation holds. */
  lemma BlankNewPasswordFirst(newValue: string, confirmValue: string)
    requires IsBlank(Some(newValue))
    ensures ValidateSubmit(newValue, confirmValue) == NewPasswordError(MsgNewRequired)
  {
    TrimEmptyIffBlank(newValue);
  }

  /**
   * Which message the submit handler shows, case by case: a blank new password,
   * then a blank confirmation, then a mismatch, then a weak password.
   */
  lemma SubmitErrorCases(newValue: string, confirmValue: string)
    ensures var r := ValidateSubmit(newValue, confirmValue);
            && (r == NewPasswordError(MsgNewRequired) <==> IsBlank(Some(newValue)))
            && (r == ConfirmPasswordError(MsgConfirmRequired) <==>
                  !IsBlank(Some(newValue)) && IsBlank(Some(confirmValue)))
            && (r == ConfirmPasswordError(MsgMismatch) <==>
                  !IsBlank(Some(newValue)) && !IsBlank(Some(confirmValue)) && Trim(newValue) != Trim(confirmValue))
            && (r == NewPasswordError(MsgTooWeak) <==>
                  !IsBlank(Some(newValue)) && Trim(newValue) == Trim(confirmValue) && !IsPasswordStrong(Trim(newValue)))
  {
    TrimEmptyIffBlank(newValue);
    TrimEmptyIffBlank(confirmValue);
    assert MsgNewRequired != MsgTooWeak && MsgConfirmRequired != MsgMismatch;
  }

  /** The body of the reset request. */
  datatype ResetRequest = ResetRequest(email: Option<string>, username: Option<string>, newPassword: string)

  // ---------------------------------------------------------------- the form

  /** The form's visible state. */
  class ResetForm {
    var newPasswordError: string
    var confirmPasswordError: string
    var requirements: Requirements
    var strength: Option<Strength>
    var submitDisabled: bool

    constructor ()
      ensures newPasswordError == "" && confirmPasswordError == "" && strength.None? && !submitDisabled
      ensures requirements == Requirements(false, false, false, false)
    {
      newPasswordError := "";
      confirmPasswordError := "";
      requirements := Requirements(false, false, false, false);
      strength := None;
      submitDisabled := false;
    }

    /** Input in the new-password field: requirements and bar follow the value; the mismatch warning is refreshed. */
    method OnNewPasswordInput(value: string, confirmValue: string)
      modifies this
      ensures requirements == RequirementsOf(value) && strength == Some(StrengthOf(RequirementsOf(value)))
      ensures newPasswordError == "" && confirmPasswordError == LiveMismatch(value, confirmValue)
      ensures submitDisabled == old(submitDisabled)
    {
      requirements := RequirementsOf(value);
      var met := MetCount(requirements);
      if met <= 2 {
        strength := Some(Weak);
      } else if met == 3 {
        strength := Some(Medium);
      } else {
        strength := Some(Strong);
      }
      newPasswordError := "";
      if confirmValue != "" && value != confirmValue {
        confirmPasswordError := MsgMismatch;
      } else {
        confirmPasswordError := "";
      }
    }

    /** Input in the confirmation field: the new-password error is cleared and the mismatch warning refreshed. */
    method OnConfirmInput(newValue: string, value: string)
      modifies this
      ensures newPasswordError == "" && confirmPasswordError == LiveMismatch(newValue, value)
      ensures requirements == old(requirements) && strength == old(strength) && submitDisabled == old(submitDisabled)
    {
      newPasswordError := "";
      if value != "" && newValue != value {
        confirmPasswordError := MsgMismatch;
      } else {
        confirmPasswordError := "";
      }
    }

    /**
     * Submitting: the first failed check puts its message under its field and nothing
     * is sent; otherwise the button is disabled and the request is returned.
     */
    method Submit(newValue: string, confirmValue: string, email: Option<string>, username: Option<string>)
        returns (request: Option<ResetRequest>)
      modifies this
      ensures requirements == old(requirements) && strength == old(strength)
      ensures ValidateSubmit(newValue, confirmValue).Send? ==>
                request == Some(ResetRequest(email, username, ValidateSubmit(newValue, confirmValue).newPassword))
                && submitDisabled && newPasswordError == "" && confirmPasswordError == ""
      ensures ValidateSubmit(newValue, confirmValue).NewPasswordError? ==>
                request.None? && submitDisabled == old(submitDisabled) && confirmPasswordError == ""
                && newPasswordError == ValidateSubmit(newValue, confirmValue).message
      ensures ValidateSubmit(newValue, confirmValue).ConfirmPasswordError? ==>
                request.None? && submitDisabled == old(submitDisabled) && newPasswordError == ""
                && confirmPasswordError == ValidateSubmit(newValue, confirmValue).message
    {
      newPasswordError := "";
      confirmPasswordError := "";
      var newPassword := Trim(newValue);
      var confirmPassword := Trim(confirmValue);
      if newPassword == "" {
        assert ValidateSubmit(newValue, confirmValue) == NewPasswordError(MsgNewRequired);
        newPasswordError := MsgNewRequired;
        return None;
      }
      if confirmPassword == "" {
        assert ValidateSubmit(newValue, confirmValue) == ConfirmPasswordError(MsgConfirmRequired);
        confirmPasswordError := MsgConfirmRequired;
        return None;
      }
      if newPassword != confirmPassword {
        assert ValidateSubmit(newValue, confirmValue) == ConfirmPasswordError(MsgMismatch);
        confirmPasswordError := MsgMismatch;
        return None;
      }
      if !IsPasswordStrong(newPassword) {
        assert ValidateSubmit(newValue, confirmValue) == NewPasswordError(MsgTooWeak);
        newPasswordError := MsgTooWeak;
        return None;
      }
      assert ValidateSubmit(newValue, confirmValue) == Send(newPassword);
      submitDisabled := true;
      request := Some(ResetRequest(email, username, newPassword));
    }
  }
}
