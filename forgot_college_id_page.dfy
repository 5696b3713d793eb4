// The "forgot college ID" page (NewModel/frontend/src/components/ForgotCollegeID.jsx):
// two guards, then `requestCollegeId`; success shows one generic message
// whether or not an account matched, and clears both inputs.
module ForgotCollegeIdPage {
  import opened Wrappers
  import opened Formats

  const EnterBoth: string := "Please enter both email and student ID"
  const BadStudentId: string := "Student ID must be 8-12 digits"
  const Sent: string := "If a matching account exists, your college ID has been sent to your email."
  const RequestFailed: string := "Failed to request college ID. Please try again."

  /** The first failing guard's message, or None. The email is only required to be non-empty. */
  function FirstFailure(email: string, studentId: string): (r: Option<string>)
    ensures r == Some(EnterBoth) <==> email == "" || studentId == ""
    ensures r == Some(BadStudentId) <==> email != "" && studentId != "" && !StudentIdShape(studentId)
    ensures r.None? <==> email != "" && StudentIdShape(studentId)
  {
    if email == "" || studentId == "" then Some(EnterBoth)
    else if !StudentIdShape(studentId) then Some(BadStudentId)
    else None
  }

  /** Unlike the sign-up form, an email without any '@' gets through. */
  lemma EmailShapeNotChecked()
    ensures FirstFailure("student", "12345678").None?
    ensures !EmailPattern("student")
  {
    var s := "student";
    forall i, j ensures !SplitAt(s, i, j) {
      if 0 <= i < |s| {
        assert s[i] != '@';
      }
    }
  }

  class ForgotCollegeIdForm {
    var email: string
    var studentId: string
    var message: string
    var error: string

    constructor()
      ensures email == "" && studentId == "" && message == "" && error == ""
    {
      email, studentId, message, error := "", "", "", "";
    }

    /** handleSubmit, with `outcome` standing for how `requestCollegeId(email, studentId)` ended. */
    method HandleSubmit(outcome: CallOutcome) returns (call: Option<(string, string)>)
      modifies this
      ensures call.Some? <==> FirstFailure(old(email), old(studentId)).None?
      ensures call.Some? ==> call.value == (old(email), old(studentId))
      ensures FirstFailure(old(email), old(studentId)).Some? ==>
                error == FirstFailure(old(email), old(studentId)).value && message == ""
                && email == old(email) && studentId == old(studentId)
      ensures call.Some? && outcome.Resolved? ==>
                message == Sent && error == "" && email == "" && studentId == ""
      ensures call.Some? && outcome.Threw? ==>
                error == MessageOr(outcome.message, RequestFailed) && message == ""
                && email == old(email) && studentId == old(studentId)
    {
      error := "";
      message := "";
      var failure := FirstFailure(email, studentId);
      if failure.Some? {
        error := failure.value;
        return None;
      }
      call := Some((email, studentId));
      match outcome {
        case Resolved =>
          message := Sent;
          email := "";
          studentId := "";
        case Threw(msg) =>
          error := MessageOr(msg, RequestFailed);
      }
    }
  }
}
