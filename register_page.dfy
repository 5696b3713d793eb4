// The sign-up form's submit handler (New/frontend/src/components/Register.jsx):
// a chain of guards, each of which shows its message and stops, then the call
// to the session's `register`.
module RegisterPage {
  import opened Wrappers
  import opened TextUtil
  import opened Formats
  import opened AuthSchemas
  import AuthSession

  const FillAll: string := "Please fill in all fields"
  const BadEmail: string := "Please enter a valid email address"
  const BadStudentId: string := "Student ID must be 8-12 digits"
  const Mismatch: string := "Passwords do not match"
  const TooShort: string := "Password must be at least 8 characters long"
  const RegisterFailed: string := "Registration failed. Please try again."

  datatype Fields = Fields(email: string, studentId: string, collegeId: string,
                           password: string, confirmPassword: string)

  /** The arguments of `register(email, studentId, collegeId, password)`. */
  datatype RegisterCall = RegisterCall(email: string, studentId: string, collegeId: string, password: string)

  predicate AllFilled(f: Fields) {
    f.email != "" && f.studentId != "" && f.collegeId != "" && f.password != "" && f.confirmPassword != ""
  }

  /**
   * The message of the first guard that fails, or None when every guard
   * passes. Each message is shown exactly when its own rule fails and every
   * earlier rule holds.
   */
  function FirstFailure(f: Fields): (r: Option<string>)
    ensures r == Some(FillAll) <==> !AllFilled(f)
    ensures r == Some(BadEmail) <==> AllFilled(f) && !EmailPattern(f.email)
    ensures r == Some(BadStudentId) <==> AllFilled(f) && EmailPattern(f.email) && !StudentIdShape(f.studentId)
    ensures r == Some(Mismatch) <==>
              AllFilled(f) && EmailPattern(f.email) && StudentIdShape(f.studentId) && f.password != f.confirmPassword
    ensures r == Some(TooShort) <==>
              AllFilled(f) && EmailPattern(f.email) && StudentIdShape(f.studentId)
              && f.password == f.confirmPassword && |f.password| < 8
    ensures r.None? <==>
              AllFilled(f) && EmailPattern(f.email) && StudentIdShape(f.studentId)
              && f.password == f.confirmPassword && |f.password| >= 8
  {
    EmailCheckIsPattern(f.email);
    if !AllFilled(f) then Some(FillAll)
    else if !EmailCheck(f.email) then Some(BadEmail)
    else if !StudentIdShape(f.studentId) then Some(BadStudentId)
    else if f.password != f.confirmPassword then Some(Mismatch)
    else if |f.password| < 8 then Some(TooShort)
    else None
  }

  /**
   * A form the page lets through passes the server's UserCreate validators
   * exactly when the college ID has at least 3 characters: the page only
   * asks for a non-empty one.
   */
  lemma PageAndServerAgree(f: Fields)
    requires FirstFailure(f).None?
    ensures ParseUserCreate(f.email, f.studentId, f.collegeId, f.password).Valid? <==> |f.collegeId| >= 3
  {
  }

  /** A two-character college ID passes the page and fails the server. */
  lemma ShortCollegeIdReachesServer()
    ensures var f := Fields("a@b.co", "12345678", "ab", "password1", "password1");
            FirstFailure(f).None? && ParseUserCreate(f.email, f.studentId, f.collegeId, f.password).Invalid?
  {
    var f := Fields("a@b.co", "12345678", "ab", "password1", "password1");
    assert SplitAt(f.email, 1, 3);
    assert StudentIdShape(f.studentId);
    assert FirstFailure(f).None?;
    PageAndServerAgree(f);
  }

  /**
   * The server refuses that form with a 422 whose detail lists one
   * validation error; the session throws it as `new Error(data.detail)`, so
   * the page shows "[object Object]" and not the college-ID message.
   */
  lemma ShortCollegeIdShowsObject()
    ensures var v := ParseUserCreate("a@b.co", "12345678", "ab", "password1");
            && v == Invalid([CollegeIdMessage])
            && AuthSession.FailureMessage(AuthSession.Rejected(RefusalDetail(v)), AuthSession.RegistrationFailed)
               == "[object Object]"
  {
    assert StudentIdShape("12345678");
    var errs := [StudentIdError("12345678"), CollegeIdError("ab"), PasswordError("password1")];
    assert errs == [None, Some(CollegeIdMessage), None];
    assert Messages(errs) == [CollegeIdMessage] by {
      assert errs[1..] == [Some(CollegeIdMessage), None];
      assert errs[1..][1..] == [None];
      assert errs[1..][1..][1..] == [];
    }
  }

  class RegisterForm {
    var email: string
    var studentId: string
    var collegeId: string
    var password: string
    var confirmPassword: string
    var error: string

    function Current(): Fields
      reads this
    {
      Fields(email, studentId, collegeId, password, confirmPassword)
    }

    constructor()
      ensures Current() == Fields("", "", "", "", "") && error == ""
    {
      email, studentId, collegeId, password, confirmPassword := "", "", "", "", "";
      error := "";
    }

    /**
     * handleSubmit: clears the error, runs the guards in order, and calls
     * `register` only when all pass; `outcome` is how that call ended. The
     * inputs are left as they were.
     */
    method HandleSubmit(outcome: CallOutcome) returns (call: Option<RegisterCall>)
      modifies this
      ensures Current() == old(Current())
      ensures call.Some? <==> FirstFailure(Current()).None?
      ensures call.Some? ==> call.value == RegisterCall(email, studentId, collegeId, password)
      ensures error == match FirstFailure(Current())
                       case Some(m) => m
                       case None => (match outcome case Resolved => "" case Threw(msg) => MessageOr(msg, RegisterFailed))
    {
      error := "";
      var failure := FirstFailure(Current());
      if failure.Some? {
        error := failure.value;
        return None;
      }
      call := Some(RegisterCall(email, studentId, collegeId, password));
      match outcome {
        case Resolved =>
        case Threw(msg) => error := MessageOr(msg, RegisterFailed);
      }
    }
  }
}
