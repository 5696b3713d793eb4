// The student-profile routes (NewModel/backend/api/routes/profile.py) over
// the profile table (New/backend/database/models/student_profile.py): one
// profile per user, and a partial update that sets exactly the fields the
// request body carried. The current user is the `userId` parameter.
module ProfileRoutes {
  import opened Wrappers

  datatype Field = FullName | Department | Major | Semester | YearOfStudy | Interests | Goals

  /** A column value: text, an integer, or NULL. */
  datatype Value = Text(s: string) | Number(n: int) | Null

  predicate IsIntField(f: Field) { f == Semester || f == YearOfStudy }

  /** The columns declared nullable=False. */
  predicate NotNullable(f: Field) { f == FullName || f == Department || f == Major || f == Semester }

  /** A value of the field's declared type, or NULL. */
  predicate Fits(f: Field, v: Value) { v.Null? || (if IsIntField(f) then v.Number? else v.Text?) }

  datatype Profile = Profile(id: string, userId: string, attrs: map<Field, Value>)

  /** A row as the table holds it: every column present, of its type, NOT NULL where declared. */
  predicate StoredRow(p: Profile) {
    forall f: Field :: f in p.attrs && Fits(f, p.attrs[f]) && (NotNullable(f) ==> !p.attrs[f].Null?)
  }

  /** The body of POST /profile; pydantic has already required the four mandatory fields. */
  datatype ProfileCreate = ProfileCreate(fullName: string, department: string, major: string, semester: int,
                                         yearOfStudy: Option<int>, interests: Option<string>, goals: Option<string>)

  function TextOrNull(v: Option<string>): Value { if v.Some? then Text(v.value) else Null }
  function NumberOrNull(v: Option<int>): Value { if v.Some? then Number(v.value) else Null }

  /** The new row's columns: exactly the submitted values, absent optionals as NULL. */
  function CreateAttrs(body: ProfileCreate): (m: map<Field, Value>)
    ensures FullName in m && Department in m && Major in m && Semester in m
    ensures YearOfStudy in m && Interests in m && Goals in m
    ensures m[FullName] == Text(body.fullName) && m[Department] == Text(body.department)
    ensures m[Major] == Text(body.major) && m[Semester] == Number(body.semester)
    ensures m[YearOfStudy] == NumberOrNull(body.yearOfStudy)
    ensures m[Interests] == TextOrNull(body.interests) && m[Goals] == TextOrNull(body.goals)
  {
    var m := map[FullName := Text(body.fullName), Department := Text(body.department), Major := Text(body.major),
                 Semester := Number(body.semester), YearOfStudy := NumberOrNull(body.yearOfStudy),
                 Interests := TextOrNull(body.interests), Goals := TextOrNull(body.goals)];
    m
  }

  lemma CreatedRowIsStored(p: Profile, body: ProfileCreate)
    requires p.attrs == CreateAttrs(body)
    ensures StoredRow(p)
  {
    forall f: Field ensures f in p.attrs && Fits(f, p.attrs[f]) && (NotNullable(f) ==> !p.attrs[f].Null?) {
      match f
      case FullName =>
      case Department =>
      case Major =>
      case Semester =>
      case YearOfStudy =>
      case Interests =>
      case Goals =>
    }
  }

  /** One item of `profile_data.dict(exclude_unset=True)`: a field the request set, possibly to null. */
  datatype Update = Update(field: Field, value: Value)

  /** The value the last update of f carries, if any update names f. */
  function LastFor(us: seq<Update>, f: Field): Option<Value>
  {
    if us == [] then None
    else if us[|us| - 1].field == f then Some(us[|us| - 1].value)
    else LastFor(us[..|us| - 1], f)
  }

  /**
   * `setattr` over the updates in order. Each column ends as the last value
   * set for it, and every column no update names keeps its value.
   */
  function ApplyAll(p: Profile, us: seq<Update>): (q: Profile)
    ensures q.id == p.id && q.userId == p.userId
    ensures forall f :: f in p.attrs ==> f in q.attrs && q.attrs[f] == (match LastFor(us, f) case Some(v) => v case None => p.attrs[f])
  {
    if us == [] then p
    else
      var q := ApplyAll(p, us[..|us| - 1]);
      var u := us[|us| - 1];
      q.(attrs := q.attrs[u.field := u.value])
  }

  /** Updates of the declared types leave a complete row typed; only a NULL in a NOT NULL column breaks it. */
  lemma UpdateKeepsTypes(p: Profile, us: seq<Update>)
    requires StoredRow(p)
    requires forall k :: 0 <= k < |us| ==> Fits(us[k].field, us[k].value)
    ensures StoredRow(ApplyAll(p, us)) <==>
              forall f: Field :: NotNullable(f) && LastFor(us, f).Some? ==> !LastFor(us, f).value.Null?
  {
    var q := ApplyAll(p, us);
    forall f: Field ensures f in q.attrs && Fits(f, q.attrs[f]) {
      LastForFits(us, f);
    }
  }

  lemma {:induction false} LastForFits(us: seq<Update>, f: Field)
    requires forall k :: 0 <= k < |us| ==> Fits(us[k].field, us[k].value)
    ensures LastFor(us, f).Some? ==> Fits(f, LastFor(us, f).value)
  {
    if us != [] && us[|us| - 1].field != f {
      LastForFits(us[..|us| - 1], f);
    }
  }

  const ProfileExists: string := "Profile already exists for this user"
  const ProfileMissing: string := "Profile not found"
  const UpdateRejected: string := "Could not update profile"

  /** `.filter(StudentProfile.user_id == userId).first()` */
  function FindProfile(profiles: seq<Profile>, userId: string): (r: Option<nat>)
    ensures r.Some? ==> r.value < |profiles| && profiles[r.value].userId == userId
    ensures r.None? ==> forall k :: 0 <= k < |profiles| ==> profiles[k].userId != userId
  {
    if profiles == [] then None
    else if profiles[0].userId == userId then Some(0)
    else
      var r := FindProfile(profiles[1..], userId);
      if r.None? then None else Some(r.value + 1)
  }

  /** `get_profile`: the caller's profile, or 404. */
  function GetProfile(profiles: seq<Profile>, userId: string): (r: Result<Profile>)
    ensures r.Ok? <==> exists k :: 0 <= k < |profiles| && profiles[k].userId == userId
    ensures r.Ok? ==> r.value in profiles && r.value.userId == userId
    ensures r.Err? ==> r.error == HttpError(404, ProfileMissing)
  {
    match FindProfile(profiles, userId)
    case None => Err(HttpError(404, ProfileMissing))
    case Some(i) => Ok(profiles[i])
  }

  class ProfileTable {
    var profiles: seq<Profile>

    /** Profile ids and user ids are unique (user_id is declared unique); every row is complete. */
    ghost predicate Valid()
      reads this
    {
      && (forall i, j :: 0 <= i < j < |profiles| ==>
            profiles[i].id != profiles[j].id && profiles[i].userId != profiles[j].userId)
      && (forall i :: 0 <= i < |profiles| ==> StoredRow(profiles[i]))
    }

    constructor()
      ensures Valid() && profiles == []
    {
      profiles := [];
    }

    /**
     * `create_profile`: 400 when the user already has a profile; otherwise
     * one row with the user's id and exactly the submitted values.
     */
    method CreateProfile(userId: string, body: ProfileCreate, newId: string) returns (r: Result<Profile>)
      requires Valid()
      requires forall k :: 0 <= k < |profiles| ==> profiles[k].id != newId
      modifies this
      ensures Valid()
      ensures (exists k :: 0 <= k < |old(profiles)| && old(profiles)[k].userId == userId) ==>
                r == Err(HttpError(400, ProfileExists)) && profiles == old(profiles)
      ensures (forall k :: 0 <= k < |old(profiles)| ==> old(profiles)[k].userId != userId) ==>
                r == Ok(Profile(newId, userId, CreateAttrs(body))) && profiles == old(profiles) + [r.value]
    {
      if FindProfile(profiles, userId).Some? {
        return Err(HttpError(400, ProfileExists));
      }
      var p := Profile(newId, userId, CreateAttrs(body));
      CreatedRowIsStored(p, body);
      profiles := profiles + [p];
      r := Ok(p);
    }

    /**
     * `update_profile`: 404 without a profile; otherwise the setattr loop,
     * then the commit, which the NOT NULL constraints reject (rollback, 400)
     * when a mandatory column was set to null.
     */
    method UpdateProfile(userId: string, updates: seq<Update>) returns (r: Result<Profile>)
      requires Valid()
      requires forall k :: 0 <= k < |updates| ==> Fits(updates[k].field, updates[k].value)
      modifies this
      ensures Valid()
      ensures FindProfile(old(profiles), userId).None? ==>
                r == Err(HttpError(404, ProfileMissing)) && profiles == old(profiles)
      ensures FindProfile(old(profiles), userId).Some? ==>
                var i := FindProfile(old(profiles), userId).value;
                var q := ApplyAll(old(profiles)[i], updates);
                if StoredRow(q) then r == Ok(q) && profiles == old(profiles)[i := q]
                else r == Err(HttpError(400, UpdateRejected)) && profiles == old(profiles)
    {
      var found := FindProfile(profiles, userId);
      if found.None? {
        return Err(HttpError(404, ProfileMissing));
      }
      var i := found.value;
      var p := profiles[i];
      for k := 0 to |updates|
        invariant p == ApplyAll(profiles[i], updates[..k])
      {
        assert updates[..k + 1][..k] == updates[..k];
        p := p.(attrs := p.attrs[updates[k].field := updates[k].value]);
      }
      assert updates[..|updates|] == updates;
      UpdateKeepsTypes(profiles[i], updates);
      if !StoredRow(p) {
        return Err(HttpError(400, UpdateRejected));
      }
      profiles := profiles[i := p];
      r := Ok(p);
    }
  }
}
