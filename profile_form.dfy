// The profile form (New/frontend/src/components/StudentProfileForm.jsx): a
// form object edited field by field, merged with the fetched profile, checked
// for the four required fields and turned into the POST body, with
// JavaScript's `parseInt` for the two numeric fields.
module ProfileForm {
  import opened Wrappers
  import opened TextUtil

  /** A form value: the inputs give strings; a fetched profile also brings numbers and null. */
  datatype JsVal = JStr(s: string) | JNum(n: int) | JNull

  /** JavaScript truthiness: "" , 0 and null are falsy. */
  predicate Truthy(v: JsVal) {
    match v
    case JStr(s) => s != ""
    case JNum(n) => n != 0
    case JNull => false
  }

  /** `formData[key]`; a missing key reads as undefined, which behaves as null here. */
  function Get(form: map<string, JsVal>, key: string): JsVal {
    if key in form then form[key] else JNull
  }

  // ---------------------------------------------------------------- parseInt

  /** The value of an ASCII digit or letter (0-9, then a-z / A-Z as 10-35). */
  function DigitValue(c: char): (d: Option<nat>)
    ensures d.Some? ==> d.value < 36
    ensures IsAsciiDigit(c) ==> d == Some(c as int - '0' as int)
  {
    if '0' <= c <= '9' then Some(c as int - '0' as int)
    else if 'a' <= c <= 'z' then Some(c as int - 'a' as int + 10)
    else if 'A' <= c <= 'Z' then Some(c as int - 'A' as int + 10)
    else None
  }

  predicate IsDigitIn(c: char, radix: nat) { DigitValue(c).Some? && DigitValue(c).value < radix }

  /** Length of the longest prefix of digits in the radix. */
  function DigitRun(s: string, radix: nat): (n: nat)
    ensures n <= |s|
    ensures forall k :: 0 <= k < n ==> IsDigitIn(s[k], radix)
    ensures n < |s| ==> !IsDigitIn(s[n], radix)
  {
    if s == [] || !IsDigitIn(s[0], radix) then 0 else 1 + DigitRun(s[1..], radix)
  }

  /** The number the digits spell, most significant first. */
  function DigitsValue(s: string, radix: nat): int
    requires forall k :: 0 <= k < |s| ==> IsDigitIn(s[k], radix)
  {
    if s == [] then 0
    else
      var init := s[..|s| - 1];
      assert forall k :: 0 <= k < |init| ==> init[k] == s[k];
      var last := DigitValue(s[|s| - 1]);
      assert IsDigitIn(s[|s| - 1], radix);
      var high := DigitsValue(init, radix);
      high * radix + last.value
  }

  predicate HexPrefix(s: string) { |s| >= 2 && s[0] == '0' && (s[1] == 'x' || s[1] == 'X') }

  /**
   * `parseInt(s)` without a radix: leading whitespace skipped, an optional
   * sign, a "0x" prefix selecting base 16, then the longest run of digits;
   * None (NaN) when that run is empty.
   */
  function ParseInt(s: string): (r: Option<int>)
  {
    var t := TrimStart(Js, s);
    var negative := t != [] && t[0] == '-';
    var unsigned := if t != [] && (t[0] == '-' || t[0] == '+') then t[1..] else t;
    var radix := if HexPrefix(unsigned) then 16 else 10;
    var body := if HexPrefix(unsigned) then unsigned[2..] else unsigned;
    match LeadingNumber(body, radix)
    case None => None
    case Some(v) => Some(if negative then -v else v)
  }

  /** The value of the leading run of digits, None when there is none. */
  function LeadingNumber(s: string, radix: nat): (r: Option<int>)
    ensures r.None? <==> DigitRun(s, radix) == 0
  {
    var n := DigitRun(s, radix);
    if n == 0 then None
    else
      assert forall k :: 0 <= k < n ==> s[..n][k] == s[k];
      Some(DigitsValue(s[..n], radix))
  }

  /** The decimal rendering of a natural number (what `String(n)` gives). */
  function NatToString(n: nat): (s: string)
    ensures |s| >= 1 && IsAsciiDigit(s[0])
    ensures forall k :: 0 <= k < |s| ==> IsAsciiDigit(s[k])
    ensures n > 0 ==> s[0] != '0'
  {
    if n < 10 then [('0' as int + n) as char]
    else NatToString(n / 10) + [('0' as int + n % 10) as char]
  }

  function IntToString(n: int): string {
    if n >= 0 then NatToString(n) else "-" + NatToString(-n)
  }

  lemma {:induction false} NatToStringValue(n: nat)
    ensures forall k :: 0 <= k < |NatToString(n)| ==> IsDigitIn(NatToString(n)[k], 10)
    ensures DigitsValue(NatToString(n), 10) == n
  {
    var s := NatToString(n);
    forall k | 0 <= k < |s| ensures IsDigitIn(s[k], 10) {
      assert IsAsciiDigit(s[k]);
    }
    if n >= 10 {
      NatToStringValue(n / 10);
      assert s[..|s| - 1] == NatToString(n / 10);
    }
  }

  /** A string of decimal digits only is one leading number, its whole value. */
  lemma AllDigitsLead(d: string)
    requires d != [] && forall k :: 0 <= k < |d| ==> IsDigitIn(d[k], 10)
    ensures LeadingNumber(d, 10) == Some(DigitsValue(d, 10))
  {
    assert DigitRun(d, 10) == |d|;
    assert d[..|d|] == d;
  }

  /** With no space, sign or hex prefix in front, parseInt reads the leading decimal number. */
  lemma ParsePlain(t: string)
    requires t != [] && !IsSpace(Js, t[0]) && t[0] != '-' && t[0] != '+' && !HexPrefix(t)
    ensures ParseInt(t) == LeadingNumber(t, 10)
  {
    TrimStartStopsAt(Js, t, 0);
    assert t[0..] == t;
  }

  /** A minus sign in front negates the decimal number that follows it. */
  lemma ParseMinus(d: string, v: int)
    requires !HexPrefix(d) && LeadingNumber(d, 10) == Some(v)
    ensures ParseInt("-" + d) == Some(-v)
  {
    var t := "-" + d;
    TrimStartStopsAt(Js, t, 0);
    assert t[0..] == t;
    assert t[1..] == d;
  }

  /** A whole decimal string with no sign parses to its value. */
  lemma DecimalParses(n: nat)
    ensures ParseInt(NatToString(n)) == Some(n)
  {
    var s := NatToString(n);
    assert LeadingNumber(s, 10) == Some(n) by {
      NatToStringValue(n);
      AllDigitsLead(s);
    }
    if n == 0 {
      assert s == "0";
    }
    ParsePlain(s);
  }

  /** A minus sign before a decimal string negates its value. */
  lemma NegativeParses(m: nat)
    requires m > 0
    ensures ParseInt("-" + NatToString(m)) == Some(-(m as int))
  {
    var d := NatToString(m);
    assert LeadingNumber(d, 10) == Some(m) by {
      NatToStringValue(m);
      AllDigitsLead(d);
    }
    ParseMinus(d, m);
  }

  /** `parseInt(String(n))` gives back n: a number kept in the form survives the payload. */
  lemma ParseIntRoundTrip(n: int)
    ensures ParseInt(IntToString(n)) == Some(n)
  {
    if n >= 0 {
      assert IntToString(n) == NatToString(n);
      DecimalParses(n);
    } else {
      assert IntToString(n) == "-" + NatToString(-n);
      NegativeParses(-n);
    }
  }

  /** The trailing non-digits are ignored: "3rd" parses as 3. */
  lemma ParseIntStopsAtNonDigit()
    ensures ParseInt("3rd") == Some(3)
  {
    var s := "3rd";
    assert TrimStart(Js, s) == s;
    assert !HexPrefix(s);
    assert DigitRun(s[1..], 10) == 0;
    assert DigitRun(s, 10) == 1;
    assert s[..1] == "3";
    assert DigitsValue("3", 10) == DigitsValue("", 10) * 10 + 3;
  }

  /** `parseInt` applied to a form value: a number is turned into its string first, null into "null". */
  function ParseIntValue(v: JsVal): Option<int> {
    match v
    case JStr(s) => ParseInt(s)
    case JNum(n) => ParseInt(IntToString(n))
    case JNull => ParseInt("null")
  }

  lemma NumberValueParses(n: int)
    ensures ParseIntValue(JNum(n)) == Some(n)
  {
    ParseIntRoundTrip(n);
  }

  // ---------------------------------------------------------------- the form

  const InitialForm: map<string, JsVal> := map[
    "full_name" := JStr(""), "department" := JStr(""), "major" := JStr(""), "semester" := JStr(""),
    "year_of_study" := JStr(""), "email" := JStr(""), "expected_graduation" := JStr("")]

  const FillRequired: string := "Please fill all required fields"
  const FetchError: string := "Error fetching profile data"
  const SaveError: string := "Error saving profile"

  /** The four required fields are all truthy. */
  predicate RequiredFilled(form: map<string, JsVal>) {
    Truthy(Get(form, "full_name")) && Truthy(Get(form, "department"))
    && Truthy(Get(form, "major")) && Truthy(Get(form, "semester"))
  }

  /**
   * The POST body: the three texts as they are, semester through parseInt
   * (None is NaN, which JSON sends as null), year_of_study through parseInt
   * or null when empty, interests and goals always "". Email and expected
   * graduation have no place in it.
   */
  datatype Payload = Payload(fullName: JsVal, department: JsVal, major: JsVal, semester: Option<int>,
                             yearOfStudy: Option<int>, interests: string, goals: string)

  function BuildPayload(form: map<string, JsVal>): (p: Payload)
    ensures p.fullName == Get(form, "full_name") && p.department == Get(form, "department")
    ensures p.major == Get(form, "major")
    ensures p.semester == ParseIntValue(Get(form, "semester"))
    ensures !Truthy(Get(form, "year_of_study")) ==> p.yearOfStudy.None?
    ensures Truthy(Get(form, "year_of_study")) ==> p.yearOfStudy == ParseIntValue(Get(form, "year_of_study"))
    ensures p.interests == "" && p.goals == ""
  {
    Payload(Get(form, "full_name"), Get(form, "department"), Get(form, "major"),
            ParseIntValue(Get(form, "semester")),
            if Truthy(Get(form, "year_of_study")) then ParseIntValue(Get(form, "year_of_study")) else None,
            "", "")
  }

  /** Whatever the email and expected-graduation inputs hold, the body is the same. */
  lemma PayloadIgnoresEmail(form: map<string, JsVal>, email: JsVal, graduation: JsVal)
    ensures BuildPayload(form["email" := email]["expected_graduation" := graduation]) == BuildPayload(form)
  {
    var f := form["email" := email]["expected_graduation" := graduation];
    assert Get(f, "full_name") == Get(form, "full_name");
    assert Get(f, "department") == Get(form, "department");
    assert Get(f, "major") == Get(form, "major");
    assert Get(f, "semester") == Get(form, "semester");
    assert Get(f, "year_of_study") == Get(form, "year_of_study");
  }

  /** A semester typed as a decimal number reaches the server as that number. */
  lemma TypedSemesterIsSent(form: map<string, JsVal>, n: nat)
    requires Get(form, "semester") == JStr(NatToString(n))
    ensures BuildPayload(form).semester == Some(n)
  {
    DecimalParses(n);
  }

  /**
   * A semester typed as ".5" passes the required-field check but parses to
   * NaN, so the body carries a null semester, which the server's integer
   * field refuses with a 422.
   */
  lemma FractionalSemesterIsNull(form: map<string, JsVal>)
    requires Get(form, "semester") == JStr(".5")
    ensures Truthy(Get(form, "semester")) && BuildPayload(form).semester.None?
  {
    assert ".5"[0] == '.';
  }

  /** How the profile request ended: a body, an empty body, or an error with its status (None: no response). */
  datatype FetchReply = Found(data: map<string, JsVal>) | EmptyBody | FetchFailed(status: Option<int>)

  /** How the save request ended: success, or an error with its `response.data.detail`. */
  datatype SaveReply = Saved | SaveFailed(detail: Detail)

  class StudentProfileForm {
    var form: map<string, JsVal>
    var loading: bool
    var error: Shown
    var success: bool
    var profileExists: bool
    var closeScheduled: bool

    constructor()
      ensures form == InitialForm && !loading && error == ShownText("") && !success && !profileExists && !closeScheduled
    {
      form := InitialForm;
      loading, error, success, profileExists, closeScheduled := false, ShownText(""), false, false, false;
    }

    /** handleChange: the named field takes the input's text; every other field keeps its value. */
    method HandleChange(name: string, value: string)
      modifies this
      ensures name in form && form[name] == JStr(value)
      ensures form.Keys == old(form).Keys + {name}
      ensures forall k :: k in old(form) && k != name ==> form[k] == old(form)[k]
      ensures loading == old(loading) && error == old(error) && success == old(success)
      ensures profileExists == old(profileExists) && closeScheduled == old(closeScheduled)
    {
      form := form[name := JStr(value)];
    }

    /**
     * fetchProfile: a fetched body is merged over the form, and `email` is
     * set to the session user's email or "" in every case. Only a failure
     * with a response whose status is not 401 or 404 shows an error.
     */
    method FetchProfile(reply: FetchReply, userEmail: Option<string>)
      modifies this
      ensures !loading && success == old(success) && closeScheduled == old(closeScheduled)
      ensures var email := JStr(if userEmail.Some? then userEmail.value else "");
              form == (if reply.Found? then old(form) + reply.data else old(form))["email" := email]
      ensures profileExists == (old(profileExists) || reply.Found?)
      ensures error == (if reply.FetchFailed? && reply.status.Some? && reply.status.value != 401 && reply.status.value != 404
                        then ShownText(FetchError) else old(error))
    {
      loading := true;
      var email := JStr(if userEmail.Some? then userEmail.value else "");
      match reply {
        case Found(data) =>
          form := (form + data)["email" := email];
          profileExists := true;
        case EmptyBody =>
          form := form["email" := email];
        case FetchFailed(status) =>
          form := form["email" := email];
          if status.Some? && status.value != 401 && status.value != 404 {
            error := ShownText(FetchError);
          }
      }
      loading := false;
    }

    /**
     * handleSubmit: a missing required field shows its message and sends
     * nothing; otherwise the body goes out and `reply` is how it ended: a
     * refusal stores its detail or the fallback, a validation list as the
     * list of error objects. The form itself is never changed.
     */
    method HandleSubmit(reply: SaveReply) returns (sent: Option<Payload>)
      modifies this
      ensures form == old(form) && !loading
      ensures sent.Some? <==> RequiredFilled(form)
      ensures sent.Some? ==> sent.value == BuildPayload(form)
      ensures !RequiredFilled(form) ==>
                error == ShownText(FillRequired) && !success && profileExists == old(profileExists)
                && closeScheduled == old(closeScheduled)
      ensures RequiredFilled(form) && reply.Saved? ==>
                error == ShownText("") && success && profileExists && closeScheduled
      ensures RequiredFilled(form) && reply.SaveFailed? ==>
                error == DetailOr(reply.detail, SaveError) && !success
                && profileExists == old(profileExists) && closeScheduled == old(closeScheduled)
    {
      error := ShownText("");
      success := false;
      loading := true;
      if !RequiredFilled(form) {
        error := ShownText(FillRequired);
        loading := false;
        return None;
      }
      sent := Some(BuildPayload(form));
      match reply {
        case Saved =>
          success := true;
          profileExists := true;
          closeScheduled := true;
        case SaveFailed(detail) =>
          error := DetailOr(detail, SaveError);
      }
      loading := false;
    }
  }
}
