/**
 * The three declarative rules on the `originalUrl` field of a shorten request,
 * each as a predicate, and the set of violations a validator reports for a value.
 */
module Validation {

  /** One broken rule, with the message the request class attaches to it. */
  datatype Violation = Blank | InvalidFormat | TooLong {
    function Message(): string {
      match this
      case Blank => "URL cannot be blank"
      case InvalidFormat => "Invalid URL format"
      case TooLong => "URL length must not exceed 2048 characters"
    }
  }

  /** Distinct rules carry distinct messages. */
  lemma MessageInjective(v1: Violation, v2: Violation)
    ensures v1.Message() == v2.Message() <==> v1 == v2
  {
  }

  /** The messages a validator reports for a set of violations. */
  function Messages(vs: set<Violation>): set<string> {
    set v | v in vs :: v.Message()
  }

  /** A set of violations reports as many distinct messages as it has elements. */
  lemma {:induction false} MessageCount(vs: set<Violation>)
    ensures |Messages(vs)| == |vs|
  {
    if vs != {} {
      var x :| x in vs;
      var rest := vs - {x};
      MessageCount(rest);
      assert Messages(vs) == Messages(rest) + {x.Message()};
      assert x.Message() !in Messages(rest) by {
        forall v | v in rest ensures v.Message() != x.Message() {
          MessageInjective(v, x);
        }
      }
    }
  }

  /** The `max` of the size rule. */
  const MaxLength: nat := 2048

  // ---------------------------------------------------------------------------
  // Not blank: the value is not empty after Java's String.trim(), which strips
  // every leading and trailing character up to U+0020.

  predicate IsBlank(s: string) {
    forall i :: 0 <= i < |s| ==> s[i] <= ' '
  }

  /** `String.trim()`, leading half: drops the characters up to U+0020 at the front. */
  function TrimStart(s: string): (r: string)
    ensures |r| <= |s| && r == s[|s| - |r|..]
    ensures forall i :: 0 <= i < |s| - |r| ==> s[i] <= ' '
    ensures r != [] ==> r[0] > ' '
  {
    if s != [] && s[0] <= ' ' then TrimStart(s[1..]) else s
  }

  /** `String.trim()`, trailing half: drops the characters up to U+0020 at the back. */
  function TrimEnd(s: string): (r: string)
    ensures |r| <= |s| && r == s[..|r|]
    ensures forall i :: |r| <= i < |s| ==> s[i] <= ' '
    ensures r != [] ==> r[|r| - 1] > ' '
  {
    if s != [] && s[|s| - 1] <= ' ' then TrimEnd(s[..|s| - 1]) else s
  }

  /** A value is blank exactly when trimming leaves it empty, as the not-blank validator tests. */
  lemma BlankIffTrimsToEmpty(s: string)
    ensures IsBlank(s) <==> TrimEnd(TrimStart(s)) == []
  {
  }

  // ---------------------------------------------------------------------------
  // Size: String.length() counts UTF-16 code units, so a character outside the
  // Basic Multilingual Plane counts twice.

  function Utf16Length(s: string): (n: nat)
    ensures |s| <= n <= 2 * |s|
  {
    if s == [] then 0 else (if s[0] as int > 0xFFFF then 2 else 1) + Utf16Length(s[1..])
  }

  predicate InBmp(s: string) {
    forall i :: 0 <= i < |s| ==> s[i] as int <= 0xFFFF
  }

  /** Within the Basic Multilingual Plane the size rule measures plain length. */
  lemma {:induction false} BmpLength(s: string)
    requires InBmp(s)
    ensures Utf16Length(s) == |s|
  {
    if s != [] {
      assert InBmp(s[1..]) by {
        forall i | 0 <= i < |s[1..]| ensures s[1..][i] as int <= 0xFFFF {
          assert s[1..][i] == s[i + 1];
        }
      }
      BmpLength(s[1..]);
    }
  }

  // ---------------------------------------------------------------------------
  // Pattern ^(https?://)[a-zA-Z0-9-]+\.[a-zA-Z]{2,}.*$, matched against the whole
  // value (Matcher.matches()). Without DOTALL, `.` matches anything but a line
  // terminator, so no line terminator may occur after the top-level label.

  predicate AsciiLetter(c: char) {
    'a' <= c <= 'z' || 'A' <= c <= 'Z'
  }

  /** The class [a-zA-Z0-9-]. */
  predicate LabelChar(c: char) {
    AsciiLetter(c) || '0' <= c <= '9' || c == '-'
  }

  /** The characters java.util.regex treats as line terminators. */
  predicate LineTerminator(c: char) {
    c == '\n' || c == '\r' || c as int == 0x85 || c as int == 0x2028 || c as int == 0x2029
  }

  /** The length of the `https?://` prefix of `s`, or 0 when there is none. */
  function SchemeLength(s: string): (p: nat)
    ensures p == 0 || p == 7 || p == 8
    ensures p == 7 ==> |s| >= 7 && s[..7] == "http://"
    ensures p == 8 ==> |s| >= 8 && s[..8] == "https://"
    ensures p == 0 ==> !(|s| >= 7 && s[..7] == "http://") && !(|s| >= 8 && s[..8] == "https://")
  {
    if |s| >= 8 && s[..8] == "https://" then 8
    else if |s| >= 7 && s[..7] == "http://" then 7
    else 0
  }

  /** The end of the longest run of label characters in `s` starting at `i`. */
  function LabelEnd(s: string, i: nat): (j: nat)
    requires i <= |s|
    ensures i <= j <= |s|
    ensures forall k :: i <= k < j ==> LabelChar(s[k])
    ensures j < |s| ==> !LabelChar(s[j])
    decreases |s| - i
  {
    if i < |s| && LabelChar(s[i]) then LabelEnd(s, i + 1) else i
  }

  /** The run of label characters is determined by where it stops. */
  lemma LabelEndAt(s: string, i: nat, j: nat)
    requires i <= j <= |s|
    requires forall k :: i <= k < j ==> LabelChar(s[k])
    requires j < |s| ==> !LabelChar(s[j])
    ensures LabelEnd(s, i) == j
  {
  }

  predicate NoLineTerminator(s: string) {
    forall i :: 0 <= i < |s| ==> !LineTerminator(s[i])
  }

  /** Whether the whole value matches the pattern, scanning left to right. */
  predicate MatchesPattern(s: string) {
    var p := SchemeLength(s);
    && p > 0
    && var d := LabelEnd(s, p);
    && p < d
    && d + 2 < |s|
    && s[d] == '.'
    && AsciiLetter(s[d + 1])
    && AsciiLetter(s[d + 2])
    && NoLineTerminator(s)
  }

  /**
   * The pattern read as a language: `s` splits after the scheme at `p` and at the
   * dot at `d` into `https?://`, a non-empty run of [a-zA-Z0-9-], `.`, two letters
   * (the rest of [a-zA-Z]{2,} belongs to `.*`) and a tail free of line terminators.
   */
  ghost predicate SplitsAt(s: string, p: nat, d: nat) {
    && ((p == 7 && |s| >= 7 && s[..7] == "http://") || (p == 8 && |s| >= 8 && s[..8] == "https://"))
    && p < d
    && d + 2 < |s|
    && (forall k :: p <= k < d ==> LabelChar(s[k]))
    && s[d] == '.'
    && AsciiLetter(s[d + 1]) && AsciiLetter(s[d + 2])
    && (forall k :: d + 3 <= k < |s| ==> !LineTerminator(s[k]))
  }

  /** The scanner accepts exactly the strings of the pattern's language. */
  lemma MatchesPatternIsRegexLanguage(s: string)
    ensures MatchesPattern(s) <==> exists p: nat, d: nat :: SplitsAt(s, p, d)
  {
    if MatchesPattern(s) {
      assert SplitsAt(s, SchemeLength(s), LabelEnd(s, SchemeLength(s)));
    }
    if exists p: nat, d: nat :: SplitsAt(s, p, d) {
      var p: nat, d: nat :| SplitsAt(s, p, d);
      assert p == SchemeLength(s) by {
        if p == 7 {
          assert s[4] == s[..7][4] == ':';
        }
      }
      LabelEndAt(s, p, d);
      forall k | 0 <= k < |s| ensures !LineTerminator(s[k]) {
        if k < p {
          assert s[k] == s[..p][k];
        }
      }
    }
  }

  /** A blank value never has the shape of a URL: it cannot start with "http". */
  lemma BlankNeverMatches(s: string)
    ensures IsBlank(s) ==> !MatchesPattern(s)
  {
  }

  // ---------------------------------------------------------------------------
  // The validator runs every rule and reports the union of what fails.

  function Violations(s: string): (r: set<Violation>)
    ensures Blank in r ==> InvalidFormat in r
    ensures MatchesPattern(s) ==> r <= {TooLong}
    ensures |s| <= MaxLength / 2 ==> TooLong !in r
  {
    BlankNeverMatches(s);
    (if IsBlank(s) then {Blank} else {})
    + (if MatchesPattern(s) then {} else {InvalidFormat})
    + (if Utf16Length(s) <= MaxLength then {} else {TooLong})
  }

  /** For text in the Basic Multilingual Plane the size rule fails exactly above 2048 characters. */
  lemma SizeRuleOnBmp(s: string)
    requires InBmp(s)
    ensures TooLong in Violations(s) <==> |s| > MaxLength
  {
    BmpLength(s);
  }

  /** A blank value of acceptable size breaks exactly the blank and the format rules. */
  lemma BlankGivesTwoViolations(s: string)
    requires IsBlank(s)
    requires Utf16Length(s) <= MaxLength
    ensures Violations(s) == {Blank, InvalidFormat}
  {
  }

  // ---------------------------------------------------------------------------
  // The values of the request validation tests.

  /** A well-shaped value of acceptable size passes every rule. */
  lemma WellShapedUrlIsValid(s: string)
    requires MatchesPattern(s)
    requires Utf16Length(s) <= MaxLength
    ensures Violations(s) == {}
  {
  }

  /** A non-blank value without the URL shape, within the size limit, breaks only the format rule. */
  lemma MalformedUrlGivesOneViolation(s: string)
    requires !IsBlank(s) && !MatchesPattern(s)
    requires Utf16Length(s) <= MaxLength
    ensures Violations(s) == {InvalidFormat}
  {
  }

  /** A well-shaped value over the size limit breaks only the size rule. */
  lemma OverlongWellShapedUrlGivesOneViolation(s: string)
    requires MatchesPattern(s)
    requires Utf16Length(s) > MaxLength
    ensures Violations(s) == {TooLong}
  {
  }

  /** "https://example.com/path" has the shape of a URL. */
  lemma ExamplePathMatches()
    ensures MatchesPattern("https://example.com/path")
  {
    var s := "https://example.com/path";
    assert s[..8] == "https://";
    LabelEndAt(s, 8, 15);
  }

  /** "https://example.com/path" is 24 UTF-16 units long. */
  lemma ExamplePathLength()
    ensures Utf16Length("https://example.com/path") == 24
  {
    BmpLength("https://example.com/path");
  }

  /** "https://example.com/path" passes every rule. */
  lemma ValidUrlHasNoViolations()
    ensures Violations("https://example.com/path") == {}
  {
    ExamplePathMatches();
    ExamplePathLength();
    WellShapedUrlIsValid("https://example.com/path");
  }

  /** "   " breaks the blank rule and the format rule: two violations. */
  lemma SpacesGiveTwoViolations()
    ensures Violations("   ") == {Blank, InvalidFormat}
    ensures |Violations("   ")| == 2
    ensures Messages(Violations("   ")) == {"URL cannot be blank", "Invalid URL format"}
  {
  }

  /** "invalid-url" breaks only the format rule. */
  lemma MalformedUrlGivesFormatViolation()
    ensures Violations("invalid-url") == {InvalidFormat}
    ensures Messages(Violations("invalid-url")) == {"Invalid URL format"}
  {
  }

  /** `n` copies of `c`, the test's "a".repeat(n). */
  function Repeat(c: char, n: nat): (r: string)
    ensures |r| == n && forall i :: 0 <= i < n ==> r[i] == c
  {
    seq(n, _ => c)
  }

  /** "https://" followed by 2049 letters a and ".com": well shaped, 2061 characters long. */
  lemma OverlongUrlGivesSizeViolation()
    ensures Violations("https://" + Repeat('a', 2049) + ".com") == {TooLong}
    ensures Messages(Violations("https://" + Repeat('a', 2049) + ".com")) == {"URL length must not exceed 2048 characters"}
  {
    var s := "https://" + Repeat('a', 2049) + ".com";
    assert |s| == 2061;
    assert s[..8] == "https://";
    assert forall k :: 8 <= k < 2057 ==> s[k] == 'a';
    assert s[2057] == '.' && s[2058] == 'c' && s[2059] == 'o';
    LabelEndAt(s, 8, 2057);
    assert forall k :: 0 <= k < |s| ==> s[k] as int <= 0x7A;
    BmpLength(s);
    assert !IsBlank(s) by { assert s[0] == 'h'; }
  }
}
