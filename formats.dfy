// The input shapes the front end checks with regular expressions: the email
// pattern /^[^\s@]+@[^\s@]+\.[^\s@]+$/ and the student-ID pattern /^\d{8,12}$/
// (New/frontend/src/components/Register.jsx,
// NewModel/frontend/src/components/ForgotCollegeID.jsx).
module Formats {
  import opened Wrappers
  import opened TextUtil

  /** A character of the class [^\s@]. */
  predicate IsAtomChar(c: char) { !IsSpace(Js, c) && c != '@' }

  predicate AllAtoms(s: string) { forall k :: 0 <= k < |s| ==> IsAtomChar(s[k]) }

  /**
   * The email pattern as the regular expression defines it: the whole string
   * is a non-empty atom run, '@', a non-empty run, '.', a non-empty run.
   */
  ghost predicate EmailPattern(s: string) {
    exists i, j :: SplitAt(s, i, j)
  }

  /** s is local part s[..i], '@' at i, domain name s[i+1..j], '.' at j, top-level part s[j+1..]. */
  predicate SplitAt(s: string, i: int, j: int) {
    && 0 < i && i + 1 < j && j + 1 < |s| && s[i] == '@' && s[j] == '.'
    && AllAtoms(s[..i]) && AllAtoms(s[i + 1..j]) && AllAtoms(s[j + 1..])
  }

  /** Position of the first occurrence of c. */
  function IndexOf(s: string, c: char): (r: Option<nat>)
    ensures r.Some? ==> r.value < |s| && s[r.value] == c && c !in s[..r.value]
    ensures r.None? ==> c !in s
  {
    if s == [] then None
    else if s[0] == c then Some(0)
    else
      var r := IndexOf(s[1..], c);
      assert s == [s[0]] + s[1..];
      if r.None? then None
      else
        assert s[..r.value + 1] == [s[0]] + s[1..][..r.value];
        Some(r.value + 1)
  }

  /**
   * The email check computed in one pass: split at the first '@'; the local
   * part is a non-empty atom run and the domain is an atom run with a '.'
   * strictly inside it.
   */
  predicate EmailCheck(s: string) {
    match IndexOf(s, '@')
    case None => false
    case Some(i) =>
      var d := s[i + 1..];
      i > 0 && AllAtoms(s[..i]) && |d| >= 3 && AllAtoms(d) && '.' in d[1..|d| - 1]
  }

  /** The one-pass check accepts exactly the strings the regular expression matches. */
  lemma EmailCheckIsPattern(s: string)
    ensures EmailCheck(s) <==> EmailPattern(s)
  {
    if EmailCheck(s) {
      CheckedIsPattern(s);
    }
    if EmailPattern(s) {
      PatternIsChecked(s);
    }
  }

  lemma CheckedIsPattern(s: string)
    requires EmailCheck(s)
    ensures EmailPattern(s)
  {
    var i := IndexOf(s, '@').value;
    var d := s[i + 1..];
    var k :| 0 <= k < |d[1..|d| - 1]| && d[1..|d| - 1][k] == '.';
    var j := i + 2 + k;
    assert s[j] == d[k + 1];
    assert s[i + 1..j] == d[..k + 1];
    assert s[j + 1..] == d[k + 2..];
    assert SplitAt(s, i, j);
  }

  lemma PatternIsChecked(s: string)
    requires EmailPattern(s)
    ensures EmailCheck(s)
  {
    var i, j :| SplitAt(s, i, j);
    AtFirst(s, i);
    var d := s[i + 1..];
    forall k | 0 <= k < |d| ensures IsAtomChar(d[k]) {
      if k < j - i - 1 {
        assert d[k] == s[i + 1..j][k];
      } else if k > j - i - 1 {
        assert d[k] == s[j + 1..][k - (j - i)];
      }
    }
    assert d[1..|d| - 1][j - i - 2] == '.';
  }

  lemma AtFirst(s: string, i: nat)
    requires i < |s| && s[i] == '@' && AllAtoms(s[..i])
    ensures IndexOf(s, '@') == Some(i)
  {
    assert s[i] in s;
    var r := IndexOf(s, '@');
    forall k | 0 <= k < i ensures s[k] != '@' {
      assert s[k] == s[..i][k];
    }
    forall k | 0 <= k < r.value ensures s[k] != '@' {
      assert s[k] == s[..r.value][k];
    }
  }

  /** A valid address holds exactly one '@'. */
  lemma EmailHasOneAt(s: string, p: nat)
    requires EmailPattern(s) && p < |s| && s[p] == '@'
    ensures IndexOf(s, '@') == Some(p)
  {
    var i, j :| SplitAt(s, i, j);
    forall k | 0 <= k < i ensures s[k] != '@' {
      assert s[k] == s[..i][k];
    }
    forall k | i < k < j ensures s[k] != '@' {
      assert s[k] == s[i + 1..j][k - i - 1];
    }
    forall k | j < k < |s| ensures s[k] != '@' {
      assert s[k] == s[j + 1..][k - j - 1];
    }
    AtFirst(s, i);
  }

  predicate AllDigits(s: string) { forall k :: 0 <= k < |s| ==> IsAsciiDigit(s[k]) }

  /** /^\d{8,12}$/ with JavaScript's ASCII-only \d, and Python's re.fullmatch of the same. */
  predicate StudentIdShape(s: string) { 8 <= |s| <= 12 && AllDigits(s) }
}
