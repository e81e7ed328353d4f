/** The pieces of JavaScript string semantics the signup form relies on:
    `String.prototype.trim`, the `\s` / `\S` classes of regular expressions,
    `String.prototype.length` (UTF-16 code units) and the test
    `/\S+@\S+\.\S+/.test(s)` used for the email address. */
module JsStrings {

  /** The code points of ECMAScript WhiteSpace (tab, vertical tab, form feed,
      space, no-break space, the byte order mark and the other Zs space
      separators) and LineTerminator (line feed, carriage return, line and
      paragraph separators). */
  const WhitespaceCodePoints: set<int> := {
    0x09, 0x0A, 0x0B, 0x0C, 0x0D, 0x20, 0xA0, 0x1680,
    0x2000, 0x2001, 0x2002, 0x2003, 0x2004, 0x2005, 0x2006, 0x2007,
    0x2008, 0x2009, 0x200A, 0x2028, 0x2029, 0x202F, 0x205F, 0x3000, 0xFEFF }

  /** The characters `trim` strips and the regular-expression class `\s`
      matches. */
  predicate IsWhitespace(c: char) {
    c as int in WhitespaceCodePoints
  }

  predicate AllWhitespace(s: string) {
    forall k | 0 <= k < |s| :: IsWhitespace(s[k])
  }

  /** Removes leading white space. */
  function TrimStart(s: string): string {
    if s != [] && IsWhitespace(s[0]) then TrimStart(s[1..]) else s
  }

  /** Removes trailing white space. */
  function TrimEnd(s: string): string {
    if s != [] && IsWhitespace(s[|s| - 1]) then TrimEnd(s[..|s| - 1]) else s
  }

  /** `TrimStart` keeps a suffix that does not start with white space and
      drops only white space. */
  lemma {:induction false} TrimStartSpec(s: string)
    ensures var r := TrimStart(s);
      && (r == [] || !IsWhitespace(r[0]))
      && |r| <= |s| && r == s[|s| - |r|..]
      && forall k | 0 <= k < |s| - |r| :: IsWhitespace(s[k])
  {
    if s != [] && IsWhitespace(s[0]) {
      TrimStartSpec(s[1..]);
      var r := TrimStart(s[1..]);
      assert forall k | 1 <= k < |s| - |r| :: s[k] == s[1..][k - 1];
    }
  }

  /** `TrimEnd` keeps a prefix that does not end with white space and drops
      only white space. */
  lemma {:induction false} TrimEndSpec(s: string)
    ensures var r := TrimEnd(s);
      && (r == [] || !IsWhitespace(r[|r| - 1]))
      && |r| <= |s| && r == s[..|r|]
      && forall k | |r| <= k < |s| :: IsWhitespace(s[k])
  {
    if s != [] && IsWhitespace(s[|s| - 1]) {
      TrimEndSpec(s[..|s| - 1]);
      var r := TrimEnd(s[..|s| - 1]);
      assert forall k | |r| <= k < |s| - 1 :: s[k] == s[..|s| - 1][k];
    }
  }

  /** `s.trim()` */
  function Trim(s: string): string {
    TrimEnd(TrimStart(s))
  }

  /** `!s.trim()` holds exactly when every character of `s` is white space:
      the empty string is the only falsy string. */
  lemma TrimEmptyIff(s: string)
    ensures Trim(s) == [] <==> AllWhitespace(s)
  {
    var t := TrimStart(s);
    TrimStartSpec(s);
    TrimEndSpec(t);
    if Trim(s) == [] {
      assert AllWhitespace(t[0..]);
      assert s == s[..|s| - |t|];
    }
  }

  /** Trimming keeps a contiguous piece of the input with no white space at
      either end. */
  lemma TrimShape(s: string)
    ensures var r := Trim(s);
      && (r == [] || (!IsWhitespace(r[0]) && !IsWhitespace(r[|r| - 1])))
      && (var i := |s| - |TrimStart(s)|; 0 <= i && i + |r| <= |s| && s[i..i + |r|] == r)
  {
    var t := TrimStart(s);
    var r := TrimEnd(t);
    var i := |s| - |t|;
    TrimStartSpec(s);
    TrimEndSpec(t);
    assert r == s[i..][..|r|] == s[i..i + |r|];
    if r != [] {
      assert r[0] == t[0];
    }
  }

  /** Trimming twice changes nothing. */
  lemma TrimIdempotent(s: string)
    ensures Trim(Trim(s)) == Trim(s)
  {
    var r := Trim(s);
    TrimShape(s);
    assert TrimStart(r) == r;
    assert TrimEnd(r) == r;
  }

  /** `s.length`: the number of UTF-16 code units, two for every code point
      above U+FFFF. */
  function Utf16Length(s: string): (n: nat)
    ensures |s| <= n <= 2 * |s|
    ensures (forall k | 0 <= k < |s| :: s[k] as int <= 0xFFFF) ==> n == |s|
  {
    if s == [] then 0
    else Utf16Length(s[..|s| - 1]) + (if s[|s| - 1] as int > 0xFFFF then 2 else 1)
  }

  /** The regular expression `\S+@\S+\.\S+` matches at `@` position `at` and
      `.` position `dot`: a non-blank character just before the `@`, at least
      one non-blank character between `@` and `.`, and a non-blank character
      just after the `.`. Longer runs never change whether a match exists. */
  predicate EmailMatchAt(s: string, at: int, dot: int)
    requires 0 < at && at + 1 < dot && dot + 1 < |s|
  {
    && !IsWhitespace(s[at - 1])
    && s[at] == '@'
    && (forall k | at < k < dot :: !IsWhitespace(s[k]))
    && s[dot] == '.'
    && !IsWhitespace(s[dot + 1])
  }

  /** `/\S+@\S+\.\S+/.test(s)`: the pattern is not anchored, so it succeeds
      when some substring of `s` matches. */
  predicate MatchesEmailPattern(s: string) {
    exists at, dot | 0 < at && at + 1 < dot && dot + 1 < |s| :: EmailMatchAt(s, at, dot)
  }

  lemma EmailPatternExamples()
    ensures MatchesEmailPattern("jo@uni.edu")
    ensures !MatchesEmailPattern("not-an-email")
    ensures !MatchesEmailPattern("jo@uni")
  {
    assert EmailMatchAt("jo@uni.edu", 2, 6);
    var bad := "not-an-email";
    assert forall k | 0 <= k < |bad| :: bad[k] != '@';
    var noDot := "jo@uni";
    assert forall k | 3 <= k < |noDot| :: noDot[k] != '.';
  }

  /** A string with no `@`, or no `.` after its `@`, fails the test. */
  lemma EmailPatternNeedsAtThenDot(s: string)
    requires MatchesEmailPattern(s)
    ensures exists at, dot | 0 <= at < dot < |s| :: s[at] == '@' && s[dot] == '.'
  {
  }
}
