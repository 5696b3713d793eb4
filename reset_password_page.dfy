// The password-reset page (NewModel/frontend/src/components/ResetPassword.jsx):
// the token comes from the `token` query parameter; the submit handler runs
// its guards, calls `resetPassword`, and on success clears the password
// fields and schedules the redirect to /login.
module ResetPasswordPage {
  import opened Wrappers

  const MissingToken: string := "Invalid or missing reset token"
  const EnterBoth: string := "Please enter and confirm your new password"
  const Mismatch: string := "Passwords do not match"
  const TooShort: string := "Password must be at least 8 characters long"
  const ResetDone: string := "Password has been reset successfully"
  const ResetFailed: string := "Failed to reset password. Please try again or request a new reset link."

  /**
   * The first failing guard's message, or None. The token is checked before
   * any password rule; then both fields present, then equal, then length.
   */
  function FirstFailure(token: string, newPassword: string, confirmPassword: string): (r: Option<string>)
    ensures r == Some(MissingToken) <==> token == ""
    ensures r == Some(EnterBoth) <==> token != "" && (newPassword == "" || confirmPassword == "")
    ensures r == Some(Mismatch) <==>
              token != "" && newPassword != "" && confirmPassword != "" && newPassword != confirmPassword
    ensures r == Some(TooShort) <==>
              token != "" && newPassword != "" && newPassword == confirmPassword && |newPassword| < 8
    ensures r.None? <==> token != "" && newPassword == confirmPassword && |newPassword| >= 8
  {
    if token == "" then Some(MissingToken)
    else if newPassword == "" || confirmPassword == "" then Some(EnterBoth)
    else if newPassword != confirmPassword then Some(Mismatch)
    else if |newPassword| < 8 then Some(TooShort)
    else None
  }

  class ResetPasswordForm {
    var token: string
    var newPassword: string
    var confirmPassword: string
    var message: string
    var error: string
    var redirectScheduled: bool

    constructor()
      ensures token == "" && newPassword == "" && confirmPassword == ""
      ensures message == "" && error == "" && !redirectScheduled
    {
      token, newPassword, confirmPassword := "", "", "";
      message, error := "", "";
      redirectScheduled := false;
    }

    /**
     * The effect on the location: `query` is `get('token')` (None when the
     * parameter is absent). Only a non-empty value replaces the token.
     */
    method ReadToken(query: Option<string>)
      modifies this
      ensures token == (if query.Some? && query.value != "" then query.value else old(token))
      ensures newPassword == old(newPassword) && confirmPassword == old(confirmPassword)
      ensures message == old(message) && error == old(error) && redirectScheduled == old(redirectScheduled)
    {
      if query.Some? && query.value != "" {
        token := query.value;
      }
    }

    /**
     * handleSubmit: both messages are cleared; `resetPassword(token, newPassword)`
     * is called only when every guard passes, and `outcome` is how it ended.
     */
    method HandleSubmit(outcome: CallOutcome) returns (call: Option<(string, string)>)
      modifies this
      ensures token == old(token)
      ensures call.Some? <==> FirstFailure(old(token), old(newPassword), old(confirmPassword)).None?
      ensures call.Some? ==> call.value == (old(token), old(newPassword))
      ensures FirstFailure(old(token), old(newPassword), old(confirmPassword)).Some? ==>
                && error == FirstFailure(old(token), old(newPassword), old(confirmPassword)).value
                && message == ""
                && newPassword == old(newPassword) && confirmPassword == old(confirmPassword)
                && redirectScheduled == old(redirectScheduled)
      ensures call.Some? && outcome.Resolved? ==>
                && message == ResetDone && error == ""
                && newPassword == "" && confirmPassword == "" && redirectScheduled
      ensures call.Some? && outcome.Threw? ==>
                && error == MessageOr(outcome.message, ResetFailed) && message == ""
                && newPassword == old(newPassword) && confirmPassword == old(confirmPassword)
                && redirectScheduled == old(redirectScheduled)
    {
      error := "";
      message := "";
      var failure := FirstFailure(token, newPassword, confirmPassword);
      if failure.Some? {
        error := failure.value;
        return None;
      }
      call := Some((token, newPassword));
      match outcome {
        case Resolved =>
          message := ResetDone;
          newPassword := "";
          confirmPassword := "";
          redirectScheduled := true;
        case Threw(msg) =>
          error := MessageOr(msg, ResetFailed);
      }
    }
  }
}
