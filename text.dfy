// Character classes and string helpers shared by the front end (JavaScript)
// and the back end (Python) models.
module TextUtil {

  /** Which language's notion of whitespace applies. */
  datatype Runtime = Js | Py

  /**
   * Whitespace as JavaScript's `\s` / `String.prototype.trim` see it (Js), or
   * as Python's `str.isspace` / `str.strip()` see it (Py). The two sets share
   * the ASCII controls 9..13, the space and the Unicode space separators; only
   * JavaScript counts U+FEFF, only Python counts U+001C..U+001F and U+0085.
   */
  predicate IsSpace(rt: Runtime, c: char) {
    var n := c as int;
    || (9 <= n <= 13) || n == 0x20 || n == 0xA0 || n == 0x1680
    || (0x2000 <= n <= 0x200A) || n == 0x2028 || n == 0x2029
    || n == 0x202F || n == 0x205F || n == 0x3000
    || (rt == Js && n == 0xFEFF)
    || (rt == Py && ((0x1C <= n <= 0x1F) || n == 0x85))
  }

  predicate IsBlank(rt: Runtime, s: string) {
    forall k :: 0 <= k < |s| ==> IsSpace(rt, s[k])
  }

  predicate IsAsciiDigit(c: char) { '0' <= c <= '9' }

  predicate IsAsciiLetter(c: char) { ('a' <= c <= 'z') || ('A' <= c <= 'Z') }

  /** Python's `\w` restricted to ASCII: letters, digits and the underscore. */
  predicate IsWordChar(c: char) { IsAsciiLetter(c) || IsAsciiDigit(c) || c == '_' }

  /** Drops leading whitespace. */
  function TrimStart(rt: Runtime, s: string): string
  {
    if s == [] || !IsSpace(rt, s[0]) then s else TrimStart(rt, s[1..])
  }

  /** TrimStart keeps a suffix, cuts only whitespace, and leaves no leading whitespace. */
  lemma {:induction false} TrimStartSpec(rt: Runtime, s: string)
    ensures var r := TrimStart(rt, s);
            && |r| <= |s| && r == s[|s| - |r|..]
            && IsBlank(rt, s[..|s| - |r|])
            && (r == [] || !IsSpace(rt, r[0]))
  {
    if s != [] && IsSpace(rt, s[0]) {
      TrimStartSpec(rt, s[1..]);
      var r := TrimStart(rt, s[1..]);
      assert s[1..][|s[1..]| - |r|..] == s[|s| - |r|..];
      assert forall k :: 1 <= k < |s| - |r| ==> s[k] == s[1..][..|s[1..]| - |r|][k - 1];
    }
  }

  /** Drops trailing whitespace. */
  function TrimEnd(rt: Runtime, s: string): string
  {
    if s == [] || !IsSpace(rt, s[|s| - 1]) then s else TrimEnd(rt, s[..|s| - 1])
  }

  /** TrimEnd keeps a prefix, cuts only whitespace, and leaves no trailing whitespace. */
  lemma {:induction false} TrimEndSpec(rt: Runtime, s: string)
    ensures var r := TrimEnd(rt, s);
            && |r| <= |s| && r == s[..|r|]
            && IsBlank(rt, s[|r|..])
            && (r == [] || !IsSpace(rt, r[|r| - 1]))
  {
    if s != [] && IsSpace(rt, s[|s| - 1]) {
      TrimEndSpec(rt, s[..|s| - 1]);
      var r := TrimEnd(rt, s[..|s| - 1]);
      assert forall k :: |r| <= k < |s| - 1 ==> s[k] == s[..|s| - 1][k];
    }
  }

  /** JavaScript's `s.trim()` (rt = Js) or Python's `s.strip()` (rt = Py). */
  function Trim(rt: Runtime, s: string): (r: string)
  {
    TrimEnd(rt, TrimStart(rt, s))
  }

  /** A trimmed string is a contiguous piece of the input with only whitespace cut away. */
  lemma TrimIsInfix(rt: Runtime, s: string)
    ensures exists i, j :: 0 <= i <= j <= |s| && Trim(rt, s) == s[i..j]
                        && IsBlank(rt, s[..i]) && IsBlank(rt, s[j..])
  {
    var a := TrimStart(rt, s);
    TrimStartSpec(rt, s);
    var i := |s| - |a|;
    var r := TrimEnd(rt, a);
    TrimEndSpec(rt, a);
    var j := i + |r|;
    assert r == s[i..j];
    assert s[j..] == a[|r|..];
    assert IsBlank(rt, s[..i]) && IsBlank(rt, s[j..]);
    assert Trim(rt, s) == s[i..j];
  }

  /** Trimming leaves nothing exactly when the input is all whitespace. */
  lemma {:induction false} TrimEmptyIffBlank(rt: Runtime, s: string)
    ensures Trim(rt, s) == [] <==> IsBlank(rt, s)
  {
    var a := TrimStart(rt, s);
    TrimStartSpec(rt, s);
    TrimEndSpec(rt, a);
    if Trim(rt, s) == [] {
      assert a[0..] == a;
      assert a == [];
      forall k | 0 <= k < |s| ensures IsSpace(rt, s[k]) {
        assert s[k] == s[..|s|][k];
      }
    }
  }

  /** TrimStart cuts exactly the leading run of whitespace, wherever that run ends. */
  lemma TrimStartStopsAt(rt: Runtime, s: string, n: nat)
    requires n <= |s| && IsBlank(rt, s[..n]) && (n == |s| || !IsSpace(rt, s[n]))
    ensures TrimStart(rt, s) == s[n..]
  {
    var r := TrimStart(rt, s);
    TrimStartSpec(rt, s);
    var m := |s| - |r|;
    if m < n {
      assert false;
    } else if m > n {
      assert false;
    }
  }

  /** TrimEnd cuts exactly the trailing run of whitespace, wherever that run starts. */
  lemma TrimEndStopsAt(rt: Runtime, s: string, n: nat)
    requires n <= |s| && IsBlank(rt, s[n..]) && (n == 0 || !IsSpace(rt, s[n - 1]))
    ensures TrimEnd(rt, s) == s[..n]
  {
    var r := TrimEnd(rt, s);
    TrimEndSpec(rt, s);
    if |r| > n {
      assert false;
    } else if |r| < n {
      assert false;
    }
  }

  /** A string that starts with a non-space character is its own trim. */
  lemma TrimOfTrimmed(rt: Runtime, s: string)
    requires s == [] || (!IsSpace(rt, s[0]) && !IsSpace(rt, s[|s| - 1]))
    ensures Trim(rt, s) == s
  {
  }

  /** ASCII-only lower-casing (Python's `str.lower` on ASCII letters). */
  function AsciiLower(s: string): (r: string)
    ensures |r| == |s|
    ensures forall k :: 0 <= k < |s| ==>
      r[k] == (if 'A' <= s[k] <= 'Z' then (s[k] as int + 32) as char else s[k])
  {
    seq(|s|, k requires 0 <= k < |s| => if 'A' <= s[k] <= 'Z' then (s[k] as int + 32) as char else s[k])
  }

  /** `needle` occurs in `hay` starting at position i. */
  predicate OccursAt(hay: string, needle: string, i: nat) {
    i + |needle| <= |hay| && hay[i..i + |needle|] == needle
  }

  /** Python's `needle in hay` for strings, computed by a left-to-right scan. */
  function Contains(hay: string, needle: string): (r: bool)
    ensures r <==> exists i: nat :: OccursAt(hay, needle, i)
    decreases |hay|
  {
    if |hay| < |needle| then false
    else if hay[..|needle|] == needle then
      assert OccursAt(hay, needle, 0);
      true
    else
      ContainsShift(hay, needle);
      Contains(hay[1..], needle)
  }

  lemma ContainsShift(hay: string, needle: string)
    requires |hay| >= |needle| && hay[..|needle|] != needle
    ensures (exists i: nat :: OccursAt(hay, needle, i)) <==> (exists i: nat :: OccursAt(hay[1..], needle, i))
  {
    if exists i: nat :: OccursAt(hay[1..], needle, i) {
      var i: nat :| OccursAt(hay[1..], needle, i);
      assert hay[1..][i..i + |needle|] == hay[i + 1..i + 1 + |needle|];
      assert OccursAt(hay, needle, i + 1);
    }
    if exists i: nat :: OccursAt(hay, needle, i) {
      var i: nat :| OccursAt(hay, needle, i);
      assert i > 0;
      assert hay[1..][i - 1..i - 1 + |needle|] == hay[i..i + |needle|];
      assert OccursAt(hay[1..], needle, i - 1);
    }
  }

  /** The prefix of `s` before its first line feed (Python's `s.split('\n')[0]`). */
  function FirstLine(s: string): (r: string)
    ensures |r| <= |s| && r == s[..|r|]
    ensures '\n' !in r
    ensures |r| < |s| ==> s[|r|] == '\n'
  {
    if s == [] then []
    else if s[0] == '\n' then []
    else [s[0]] + FirstLine(s[1..])
  }

  /** Python's slice `s[:n]`. */
  function Prefix(s: string, n: nat): (r: string)
    ensures |r| == (if |s| < n then |s| else n)
    ensures r == s[..|r|]
  {
    if |s| <= n then s else s[..n]
  }
}
