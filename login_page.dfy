// The sign-in form (NewModel/frontend/src/components/Login.jsx): one emptiness
// guard, no format rule, then `login` with the inputs exactly as typed. The
// error is not cleared before the guard.
module LoginPage {
  import opened Wrappers

  const EnterBoth: string := "Please enter both student ID and password"
  const LoginFailed: string := "Login failed. Please check your credentials and try again."

  /** None exactly when both inputs are non-empty: nothing else is asked of the student ID. */
  function Guard(studentId: string, password: string): (r: Option<string>)
    ensures r.None? <==> studentId != "" && password != ""
    ensures r.Some? ==> r.value == EnterBoth
  {
    if studentId == "" || password == "" then Some(EnterBoth) else None
  }

  class LoginForm {
    var studentId: string
    var password: string
    var error: string

    constructor()
      ensures studentId == "" && password == "" && error == ""
    {
      studentId, password, error := "", "", "";
    }

    /**
     * handleSubmit: `login(studentId, password)` gets the untrimmed inputs;
     * `outcome` is how it ended. A resolved login leaves any earlier error.
     */
    method HandleSubmit(outcome: CallOutcome) returns (call: Option<(string, string)>)
      modifies this
      ensures studentId == old(studentId) && password == old(password)
      ensures call.Some? <==> Guard(studentId, password).None?
      ensures call.Some? ==> call.value == (studentId, password)
      ensures call.None? ==> error == EnterBoth
      ensures call.Some? ==> error == (match outcome
                                       case Resolved => old(error)
                                       case Threw(msg) => MessageOr(msg, LoginFailed))
    {
      var failure := Guard(studentId, password);
      if failure.Some? {
        error := failure.value;
        return None;
      }
      call := Some((studentId, password));
      match outcome {
        case Resolved =>
        case Threw(msg) => error := MessageOr(msg, LoginFailed);
      }
    }
  }
}
