// The authentication routes (New/backend/api/routes/auth.py) over the user
// table (NewModel/backend/database/models/user.py). Hashing, password
// verification, token encoding and the random reset token are parameters;
// the clock is an input `now` in seconds.
module AuthRoutes {
  import opened Wrappers
  import opened Formats
  import opened AuthSchemas

  datatype User = User(id: string, email: string, studentId: string, collegeId: string,
                       passwordHash: string, resetToken: Option<string>,
                       resetTokenExpires: Option<int>, isActive: bool)

  /** What the access token carries: the user id as subject and the expiry time. */
  datatype Claims = Claims(sub: string, exp: int)
  datatype TokenResponse = TokenResponse(accessToken: string, tokenType: string)

  const AccessTokenSeconds: int := 30 * 60
  const ResetTokenSeconds: int := 60 * 60

  const EmailTaken: string := "Email already registered"
  const StudentIdTaken: string := "Student ID already registered"
  const BadCredentials: string := "Incorrect student ID or password"
  const ResetRequested: string := "If a user with this email exists, a password reset link has been sent"
  const BadResetToken: string := "Invalid or expired token"
  const ResetDone: string := "Password has been reset successfully"
  const CollegeIdRequested: string := "If a matching account exists, college ID information has been sent to your email"

  /** A column a query filters on. */
  datatype Key = ByEmail(email: string) | ByStudentId(studentId: string) | ByResetToken(token: string)

  /** SQL equality: a NULL reset token equals nothing. */
  predicate Matches(u: User, key: Key) {
    match key
    case ByEmail(e) => u.email == e
    case ByStudentId(s) => u.studentId == s
    case ByResetToken(t) => u.resetToken == Some(t)
  }

  /** `.filter(...).first()`: the first row that matches, in table order. */
  function First(users: seq<User>, key: Key): (r: Option<nat>)
    ensures r.Some? ==> r.value < |users| && Matches(users[r.value], key)
                        && forall k :: 0 <= k < r.value ==> !Matches(users[k], key)
    ensures r.None? ==> forall k :: 0 <= k < |users| ==> !Matches(users[k], key)
  {
    if users == [] then None
    else if Matches(users[0], key) then Some(0)
    else
      var r := First(users[1..], key);
      if r.None? then None else Some(r.value + 1)
  }

  /**
   * The table's constraints: ids (primary key), emails and student IDs are
   * unique; and every row came through a validated UserCreate.
   */
  ghost predicate Unique(users: seq<User>) {
    forall i, j :: 0 <= i < j < |users| ==>
      users[i].id != users[j].id && users[i].email != users[j].email && users[i].studentId != users[j].studentId
  }

  ghost predicate CameThroughSchema(users: seq<User>) {
    forall i :: 0 <= i < |users| ==> StudentIdShape(users[i].studentId) && |users[i].collegeId| >= 3
  }

  /** `login`: the same 401 whether the student ID is unknown or the password is wrong. */
  function Login(users: seq<User>, studentId: string, password: string,
                 verify: (string, string) -> bool, encode: Claims -> string, now: int): (r: Result<TokenResponse>)
    ensures r.Err? <==> First(users, ByStudentId(studentId)).None?
                        || !verify(password, users[First(users, ByStudentId(studentId)).value].passwordHash)
    ensures r.Err? ==> r.error == HttpError(401, BadCredentials)
    ensures r.Ok? ==> exists i :: 0 <= i < |users| && users[i].studentId == studentId
                        && r.value == TokenResponse(encode(Claims(users[i].id, now + AccessTokenSeconds)), "bearer")
  {
    match First(users, ByStudentId(studentId))
    case None => Err(HttpError(401, BadCredentials))
    case Some(i) =>
      if !verify(password, users[i].passwordHash) then Err(HttpError(401, BadCredentials))
      else Ok(TokenResponse(encode(Claims(users[i].id, now + AccessTokenSeconds)), "bearer"))
  }

  /** With unique student IDs, the token's subject is the one user holding that student ID. */
  lemma LoginSubjectIsOwner(users: seq<User>, studentId: string, password: string,
                            verify: (string, string) -> bool, encode: Claims -> string, now: int, i: nat)
    requires Unique(users) && i < |users| && users[i].studentId == studentId
    requires verify(password, users[i].passwordHash)
    ensures Login(users, studentId, password, verify, encode, now)
         == Ok(TokenResponse(encode(Claims(users[i].id, now + AccessTokenSeconds)), "bearer"))
  {
    var f := First(users, ByStudentId(studentId));
    assert f.Some?;
  }

  /**
   * `request_college_id`: one detail whether or not a row matches both
   * fields. The route looks the row up, but nothing it returns or stores
   * depends on the result, so the lookup has no effect here.
   */
  function RequestCollegeId(users: seq<User>, body: CollegeIdRequest): (detail: string)
    ensures detail == CollegeIdRequested
  {
    CollegeIdRequested
  }

  /** Clearing the reset fields of the row a token found makes the token unknown, when no other row held it. */
  lemma {:induction false} TokenSingleUse(users: seq<User>, token: string, i: nat, u: User)
    requires First(users, ByResetToken(token)) == Some(i)
    requires forall k :: 0 <= k < |users| && k != i ==> users[k].resetToken != Some(token)
    requires u.resetToken.None?
    ensures First(users[i := u], ByResetToken(token)).None?
  {
    var after := users[i := u];
    forall k | 0 <= k < |after| ensures !Matches(after[k], ByResetToken(token)) {
      if k == i {
        assert after[k] == u;
      } else {
        assert after[k] == users[k];
      }
    }
  }

  /** A row whose id, email and student ID are all new, and that passed the schema, keeps the table's constraints. */
  lemma AppendKeepsConstraints(users: seq<User>, u: User)
    requires Unique(users) && CameThroughSchema(users)
    requires First(users, ByEmail(u.email)).None? && First(users, ByStudentId(u.studentId)).None?
    requires forall k :: 0 <= k < |users| ==> users[k].id != u.id
    requires StudentIdShape(u.studentId) && |u.collegeId| >= 3
    ensures Unique(users + [u]) && CameThroughSchema(users + [u])
  {
    var after := users + [u];
    forall i, j | 0 <= i < j < |after|
      ensures after[i].id != after[j].id && after[i].email != after[j].email && after[i].studentId != after[j].studentId
    {
      if j == |users| {
        assert !Matches(users[i], ByEmail(u.email)) && !Matches(users[i], ByStudentId(u.studentId));
      }
    }
  }

  class UserTable {
    var users: seq<User>

    ghost predicate Valid()
      reads this
    {
      Unique(users) && CameThroughSchema(users)
    }

    constructor()
      ensures Valid() && users == []
    {
      users := [];
    }

    /**
     * `register`: a duplicate email is reported before a duplicate student
     * ID; otherwise exactly one row is appended, holding the hash of the
     * password. `newId` is the fresh uuid the row gets.
     */
    method Register(body: UserCreate, hash: string -> string, newId: string) returns (r: Result<User>)
      requires Valid()
      requires ParseUserCreate(body.email, body.studentId, body.collegeId, body.password).Valid?
      requires forall k :: 0 <= k < |users| ==> users[k].id != newId
      modifies this
      ensures Valid()
      ensures First(old(users), ByEmail(body.email)).Some? ==>
                r == Err(HttpError(400, EmailTaken)) && users == old(users)
      ensures First(old(users), ByEmail(body.email)).None? && First(old(users), ByStudentId(body.studentId)).Some? ==>
                r == Err(HttpError(400, StudentIdTaken)) && users == old(users)
      ensures First(old(users), ByEmail(body.email)).None? && First(old(users), ByStudentId(body.studentId)).None? ==>
                && r == Ok(User(newId, body.email, body.studentId, body.collegeId, hash(body.password), None, None, true))
                && users == old(users) + [r.value]
    {
      if First(users, ByEmail(body.email)).Some? {
        return Err(HttpError(400, EmailTaken));
      }
      if First(users, ByStudentId(body.studentId)).Some? {
        return Err(HttpError(400, StudentIdTaken));
      }
      var user := User(newId, body.email, body.studentId, body.collegeId, hash(body.password), None, None, true);
      AppendKeepsConstraints(users, user);
      users := users + [user];
      r := Ok(user);
    }

    /**
     * `request_password_reset`: the same detail whether or not the email is
     * known. For a known email, that row alone gets the new token, expiring
     * an hour from now, and a mail goes to it with the reset link.
     */
    method RequestPasswordReset(email: string, freshToken: string, now: int, baseUrl: string)
      returns (detail: string, mail: Option<(string, string)>)
      requires Valid()
      modifies this
      ensures Valid()
      ensures detail == ResetRequested
      ensures First(old(users), ByEmail(email)).None? ==> users == old(users) && mail.None?
      ensures First(old(users), ByEmail(email)).Some? ==>
                var i := First(old(users), ByEmail(email)).value;
                && users == old(users)[i := old(users)[i].(resetToken := Some(freshToken),
                                                          resetTokenExpires := Some(now + ResetTokenSeconds))]
                && mail == Some((email, baseUrl + "reset-password?token=" + freshToken))
    {
      var found := First(users, ByEmail(email));
      if found.None? {
        return ResetRequested, None;
      }
      var i := found.value;
      users := users[i := users[i].(resetToken := Some(freshToken), resetTokenExpires := Some(now + ResetTokenSeconds))];
      mail := Some((users[i].email, baseUrl + "reset-password?token=" + freshToken));
      detail := ResetRequested;
    }

    /**
     * `reset_password`: an unknown token, a missing expiry or an expiry
     * before `now` is refused; otherwise the row found gets the new hash and
     * loses its token and expiry, and no other row changes.
     */
    method ResetPassword(body: PasswordReset, hash: string -> string, now: int) returns (r: Result<string>)
      requires Valid()
      requires ParsePasswordReset(body.token, body.newPassword).Valid?
      modifies this
      ensures Valid()
      ensures var f := First(old(users), ByResetToken(body.token));
              r.Err? <==> f.None? || old(users)[f.value].resetTokenExpires.None?
                          || old(users)[f.value].resetTokenExpires.value < now
      ensures r.Err? ==> r.error == HttpError(400, BadResetToken) && users == old(users)
      ensures r.Ok? ==>
                var i := First(old(users), ByResetToken(body.token)).value;
                && r.value == ResetDone
                && users == old(users)[i := old(users)[i].(passwordHash := hash(body.newPassword),
                                                          resetToken := None, resetTokenExpires := None)]
    {
      var found := First(users, ByResetToken(body.token));
      if found.None? || users[found.value].resetTokenExpires.None? || users[found.value].resetTokenExpires.value < now {
        return Err(HttpError(400, BadResetToken));
      }
      var i := found.value;
      users := users[i := users[i].(passwordHash := hash(body.newPassword), resetToken := None, resetTokenExpires := None)];
      r := Ok(ResetDone);
    }
  }
}
