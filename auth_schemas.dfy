// The request bodies of the authentication routes and their pydantic field
// validators (New/backend/api/schemas/auth.py). A validator returns its input
// unchanged or raises; pydantic reports every failing field, in field order.
module AuthSchemas {
  import opened Wrappers
  import opened TextUtil
  import opened Formats

  const PasswordMessage: string := "Password must be at least 8 characters"
  const StudentIdMessage: string := "Student ID must be 8-12 digits"
  const CollegeIdMessage: string := "College ID is required and must be at least 3 characters"

  // ---------------------------------------------------------------- validators

  /** `password_strength`: None when the password passes, else the error message. */
  function PasswordError(v: string): (e: Option<string>)
    ensures e.None? <==> |v| >= 8
  {
    if |v| < 8 then Some(PasswordMessage) else None
  }

  /**
   * `student_id_format` as written: `re.match(r'^\d{8,12}$', v)`. Python's `$`
   * also matches just before a final line feed, so "12345678\n" passes.
   */
  predicate PyMatchStudentId(v: string) {
    StudentIdShape(v) || (|v| > 0 && v[|v| - 1] == '\n' && StudentIdShape(v[..|v| - 1]))
  }

  /** The as-written check lets a line feed into the stored student ID. */
  lemma TrailingNewlineAccepted()
    ensures PyMatchStudentId("12345678\n")
    ensures !StudentIdShape("12345678\n")
  {
    var v := "12345678\n";
    assert v[..|v| - 1] == "12345678";
  }

  /** The as-written check accepts at most one extra character: a final line feed. */
  lemma PyMatchIsShapeOrNewline(v: string)
    ensures PyMatchStudentId(v) <==> StudentIdShape(v) || (exists w :: StudentIdShape(w) && v == w + "\n")
  {
    if |v| > 0 && v[|v| - 1] == '\n' {
      assert v == v[..|v| - 1] + "\n";
    }
    forall w | StudentIdShape(w) && v == w + "\n" ensures PyMatchStudentId(v) {
      assert v[..|v| - 1] == w;
    }
  }

  /** The corrected `student_id_format`: the whole value is 8 to 12 ASCII digits. */
  function StudentIdError(v: string): (e: Option<string>)
    ensures e.None? <==> (8 <= |v| <= 12 && forall k :: 0 <= k < |v| ==> '0' <= v[k] <= '9')
    ensures e.None? ==> PyMatchStudentId(v)
  {
    if StudentIdShape(v) then None else Some(StudentIdMessage)
  }

  /** `college_id_format`: empty or shorter than 3 characters fails. */
  function CollegeIdError(v: string): (e: Option<string>)
    ensures e.None? <==> |v| >= 3
  {
    if v == "" || |v| < 3 then Some(CollegeIdMessage) else None
  }

  function Messages(errs: seq<Option<string>>): (ms: seq<string>)
    ensures ms == [] <==> forall k :: 0 <= k < |errs| ==> errs[k].None?
    ensures |ms| <= |errs|
  {
    if errs == [] then []
    else
      assert forall k :: 1 <= k < |errs| ==> errs[k] == errs[1..][k - 1];
      (if errs[0].Some? then [errs[0].value] else []) + Messages(errs[1..])
  }

  // ---------------------------------------------------------------- bodies

  datatype UserCreate = UserCreate(email: string, studentId: string, collegeId: string, password: string)
  datatype UserLogin = UserLogin(studentId: string, password: string)
  datatype PasswordReset = PasswordReset(token: string, newPassword: string)
  datatype CollegeIdRequest = CollegeIdRequest(email: string, studentId: string)

  /**
   * UserCreate: accepted exactly when every field validator passes, and then
   * holds the submitted values unchanged; otherwise the failing fields'
   * messages in declaration order (student_id, college_id, password).
   */
  function ParseUserCreate(email: string, studentId: string, collegeId: string, password: string)
    : (r: Validated<UserCreate>)
    ensures r.Valid? <==> StudentIdShape(studentId) && |collegeId| >= 3 && |password| >= 8
    ensures r.Valid? ==> r.value == UserCreate(email, studentId, collegeId, password)
    ensures r.Invalid? ==> 1 <= |r.messages| <= 3
  {
    var errs := [StudentIdError(studentId), CollegeIdError(collegeId), PasswordError(password)];
    assert (forall k :: 0 <= k < |errs| ==> errs[k].None?) <==> errs[0].None? && errs[1].None? && errs[2].None?;
    var ms := Messages(errs);
    if ms == [] then Valid(UserCreate(email, studentId, collegeId, password)) else Invalid(ms)
  }

  /**
   * The model's UserCreate differs from the schema as written only on a
   * student ID that ends in a line feed: it accepts exactly the bodies the
   * as-written validators accept, minus those.
   */
  lemma ParseUserCreateVsAsWritten(email: string, studentId: string, collegeId: string, password: string)
    ensures ParseUserCreate(email, studentId, collegeId, password).Valid? <==>
              && PyMatchStudentId(studentId) && (studentId == [] || studentId[|studentId| - 1] != '\n')
              && |collegeId| >= 3 && |password| >= 8
  {
    if StudentIdShape(studentId) && studentId != [] {
      assert '0' <= studentId[|studentId| - 1] <= '9';
    }
  }

  /** PasswordReset: the same length rule as registration, nothing asked of the token. */
  function ParsePasswordReset(token: string, newPassword: string): (r: Validated<PasswordReset>)
    ensures r.Valid? <==> |newPassword| >= 8
    ensures r.Valid? ==> r.value == PasswordReset(token, newPassword)
    ensures r.Invalid? ==> r.messages == [PasswordMessage]
  {
    match PasswordError(newPassword)
    case None => Valid(PasswordReset(token, newPassword))
    case Some(m) => Invalid([m])
  }

  /** A registration that would pass also passes a later password reset with the same password. */
  lemma RegisterPasswordPassesReset(email: string, studentId: string, collegeId: string, password: string, token: string)
    requires ParseUserCreate(email, studentId, collegeId, password).Valid?
    ensures ParsePasswordReset(token, password).Valid?
  {
  }
}
