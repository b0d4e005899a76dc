/**
 * The change-password form of the client profile screens: `validateForm`
 * fills an error map rule by rule, and a later rule may overwrite the error
 * an earlier one left on the new-password field.
 */
module ChangePassword {
  import opened JsString

  datatype PasswordForm = PasswordForm(currentPassword: string, newPassword: string, confirmPassword: string)

  datatype PasswordField = CurrentPassword | NewPassword | ConfirmPassword

  /** The errors `validateForm` can store, each standing for its message. */
  datatype PasswordError = CurrentRequired | NewRequired | TooShort | ConfirmationRequired | Mismatch | NotDifferent
  {
    function Text(): string {
      match this
      case CurrentRequired => "Current password is required"
      case NewRequired => "New password is required"
      case TooShort => "Password must be at least 6 characters"
      case ConfirmationRequired => "Please confirm your new password"
      case Mismatch => "Passwords do not match"
      case NotDifferent => "New password must be different from current password"
    }
  }

  /** `validateForm`: the error map it stores and whether the form may be submitted. */
  method ValidateForm(form: PasswordForm) returns (errors: map<PasswordField, PasswordError>, valid: bool)
    ensures CurrentPassword in errors <==> IsBlank(form.currentPassword)
    ensures CurrentPassword in errors ==> errors[CurrentPassword] == CurrentRequired
    ensures form.currentPassword == form.newPassword && !IsBlank(form.currentPassword) ==>
      NewPassword in errors && errors[NewPassword] == NotDifferent
    ensures !(form.currentPassword == form.newPassword && !IsBlank(form.currentPassword)) ==>
      && (IsBlank(form.newPassword) ==> NewPassword in errors && errors[NewPassword] == NewRequired)
      && (!IsBlank(form.newPassword) && |form.newPassword| < 6 ==>
            NewPassword in errors && errors[NewPassword] == TooShort)
      && (!IsBlank(form.newPassword) && |form.newPassword| >= 6 ==> NewPassword !in errors)
    ensures IsBlank(form.confirmPassword) ==>
      ConfirmPassword in errors && errors[ConfirmPassword] == ConfirmationRequired
    ensures !IsBlank(form.confirmPassword) && form.newPassword != form.confirmPassword ==>
      ConfirmPassword in errors && errors[ConfirmPassword] == Mismatch
    ensures !IsBlank(form.confirmPassword) && form.newPassword == form.confirmPassword ==> ConfirmPassword !in errors
    ensures valid <==> errors == map[]
    ensures valid <==>
      && !IsBlank(form.currentPassword)
      && !IsBlank(form.newPassword) && |form.newPassword| >= 6
      && form.confirmPassword == form.newPassword
      && form.newPassword != form.currentPassword
  {
    errors := map[];
    if IsBlank(form.currentPassword) {
      errors := errors[CurrentPassword := CurrentRequired];
    }
    if IsBlank(form.newPassword) {
      errors := errors[NewPassword := NewRequired];
    } else if |form.newPassword| < 6 {
      errors := errors[NewPassword := TooShort];
    }
    if IsBlank(form.confirmPassword) {
      errors := errors[ConfirmPassword := ConfirmationRequired];
    } else if form.newPassword != form.confirmPassword {
      errors := errors[ConfirmPassword := Mismatch];
    }
    if form.currentPassword == form.newPassword && !IsBlank(form.currentPassword) {
      errors := errors[NewPassword := NotDifferent];
    }
    valid := |errors.Keys| == 0;
  }
}
