/** The profile page's two forms (src/pages/Profile.tsx): the profile update, which sends the name
    and the chosen preferences, and the password change, which checks the new password twice before
    asking for the change. The account calls `updateProfile` and `changePassword` are outside the
    model: their outcome is a parameter. */
module Profile {
  import opened Common
  import opened Text
  import opened Moods
  import opened Helpers

  /** How an awaited account call ended: it succeeded, or it threw; a thrown `Error` carries its
      message, anything else thrown carries none. */
  datatype Outcome = Succeeded | Threw(message: Option<string>)

  /** The select value that stands for no choice. */
  const NotSpecified: string := "not-specified"

  /** A select value is sent only when it is a real choice. */
  function Chosen(value: string): (r: Option<string>)
    ensures r.Some? <==> value != "" && value != NotSpecified
    ensures r.Some? ==> r.value == value
  {
    if value != "" && value != NotSpecified then Some(value) else None
  }

  /** The preferences object `handleProfileUpdate` builds (lines 50-54): the study level and the
      stress source only when chosen, and the onboarding flag carried over from the user, false
      when the user has none. It has no name: the name is sent beside it. */
  function ProfilePreferences(studyLevel: string, stressSource: string, completed: Option<bool>)
    : (p: UserPreferences)
    ensures p.name.None?
    ensures p.studyLevel.Some? <==> studyLevel != "" && studyLevel != NotSpecified
    ensures p.studyLevel.Some? ==> p.studyLevel.value == studyLevel
    ensures p.stressSource.Some? <==> stressSource != "" && stressSource != NotSpecified
    ensures p.stressSource.Some? ==> p.stressSource.value == stressSource
    ensures p.hasCompletedOnboarding <==> completed == Some(true)
  {
    UserPreferences(None, Chosen(studyLevel), Chosen(stressSource), if completed.Some? then completed.value else false)
  }

  /** The message shown for a failed call. */
  function FailureMessage(message: Option<string>, fallback: string): string
  {
    if message.Some? then message.value else fallback
  }

  /** The password form's guard chain (lines 70-78): the confirmation is compared first, then the
      length of the new password; no error means the change is requested. */
  function PasswordError(newPassword: string, confirmPassword: string): (e: Option<string>)
    ensures newPassword != confirmPassword ==> e == Some("New passwords do not match")
    ensures newPassword == confirmPassword ==>
              (e.None? <==> ValidatePassword(newPassword).valid) &&
              (e.Some? ==> e == ValidatePassword(newPassword).error)
  {
    if newPassword != confirmPassword then Some("New passwords do not match")
    else if Utf16Length(newPassword) < 6 then Some("Password must be at least 6 characters")
    else None
  }

  class ProfileForm {
    var name: string
    var studyLevel: string
    var stressSource: string
    var currentPassword: string
    var newPassword: string
    var confirmPassword: string
    var showPasswordForm: bool
    var loading: bool
    var successMessage: string
    var errorMessage: string

    /** The form filled from the user (lines 35-41): missing values become empty fields. */
    constructor (user: UserPreferences)
      ensures name == (if user.name.Some? then user.name.value else "")
      ensures studyLevel == (if user.studyLevel.Some? then user.studyLevel.value else "")
      ensures stressSource == (if user.stressSource.Some? then user.stressSource.value else "")
      ensures currentPassword == "" && newPassword == "" && confirmPassword == "" && !showPasswordForm
      ensures !loading && successMessage == "" && errorMessage == ""
    {
      name := if user.name.Some? then user.name.value else "";
      studyLevel := if user.studyLevel.Some? then user.studyLevel.value else "";
      stressSource := if user.stressSource.Some? then user.stressSource.value else "";
      currentPassword, newPassword, confirmPassword, showPasswordForm := "", "", "", false;
      loading, successMessage, errorMessage := false, "", "";
    }

    /** `handleProfileUpdate` (lines 43-63), up to its timer; `completed` is the user's stored
        onboarding flag and `outcome` how `updateProfile` ended. Returns the arguments of the call. */
    method HandleProfileUpdate(completed: Option<bool>, outcome: Outcome)
      returns (sentName: string, sentPreferences: UserPreferences)
      modifies this`loading, this`successMessage, this`errorMessage
      ensures sentName == name && sentPreferences == ProfilePreferences(studyLevel, stressSource, completed)
      ensures outcome.Succeeded? ==> successMessage == "Profile updated successfully!" && errorMessage == ""
      ensures outcome.Threw? ==>
                successMessage == "" && errorMessage == FailureMessage(outcome.message, "Failed to update profile")
      ensures !loading
    {
      loading := true;
      errorMessage := "";
      successMessage := "";
      sentName, sentPreferences := name, ProfilePreferences(studyLevel, stressSource, completed);
      if outcome.Succeeded? {
        successMessage := "Profile updated successfully!";
      } else {
        errorMessage := FailureMessage(outcome.message, "Failed to update profile");
      }
      loading := false;
    }

    /** `handlePasswordChange` (lines 65-95), up to its timer; `outcome` is how `changePassword`
        ends when it is called. Returns the current and the new password when the call is made. */
    method HandlePasswordChange(outcome: Outcome) returns (call: Option<(string, string)>)
      modifies this`errorMessage, this`successMessage, this`loading, this`currentPassword, this`newPassword,
               this`confirmPassword, this`showPasswordForm
      ensures PasswordError(old(newPassword), old(confirmPassword)).Some? ==>
                call.None? && errorMessage == PasswordError(old(newPassword), old(confirmPassword)).value &&
                successMessage == "" && loading == old(loading) &&
                currentPassword == old(currentPassword) && newPassword == old(newPassword) &&
                confirmPassword == old(confirmPassword) && showPasswordForm == old(showPasswordForm)
      ensures PasswordError(old(newPassword), old(confirmPassword)).None? ==>
                call == Some((old(currentPassword), old(newPassword))) && !loading
      ensures PasswordError(old(newPassword), old(confirmPassword)).None? && outcome.Succeeded? ==>
                successMessage == "Password changed successfully!" && errorMessage == "" &&
                currentPassword == "" && newPassword == "" && confirmPassword == "" && !showPasswordForm
      ensures PasswordError(old(newPassword), old(confirmPassword)).None? && outcome.Threw? ==>
                successMessage == "" && errorMessage == FailureMessage(outcome.message, "Failed to change password") &&
                currentPassword == old(currentPassword) && newPassword == old(newPassword) &&
                confirmPassword == old(confirmPassword) && showPasswordForm == old(showPasswordForm)
    {
      errorMessage := "";
      successMessage := "";
      var error := PasswordError(newPassword, confirmPassword);
      if error.Some? {
        errorMessage := error.value;
        return None;
      }
      loading := true;
      call := Some((currentPassword, newPassword));
      if outcome.Succeeded? {
        successMessage := "Password changed successfully!";
        currentPassword := "";
        newPassword := "";
        confirmPassword := "";
        showPasswordForm := false;
      } else {
        errorMessage := FailureMessage(outcome.message, "Failed to change password");
      }
      loading := false;
    }

    /** The Cancel button of the password form (lines 297-302). */
    method CancelPasswordChange()
      modifies this`showPasswordForm, this`currentPassword, this`newPassword, this`confirmPassword
      ensures !showPasswordForm && currentPassword == "" && newPassword == "" && confirmPassword == ""
    {
      showPasswordForm := false;
      currentPassword := "";
      newPassword := "";
      confirmPassword := "";
    }
  }
}
