/**
  The string checks the request validators rely on: Java's `String.trim()`,
  the `@NotBlank` and `@Pattern(regexp = "^[a-zA-Z0-9]+$")` constraints, and
  the group-sequence rule that decides which violations are reported.
 */
module Text {
  import opened Outcome

  /** A character `String.trim()` strips: any code point up to and including the space. */
  predicate IsTrimmable(c: char) {
    c <= ' '
  }

  /** Every character of `s` would be stripped by `trim()`. */
  predicate IsBlank(s: string) {
    forall i :: 0 <= i < |s| ==> IsTrimmable(s[i])
  }

  /** `s` with its leading trimmable characters removed. */
  function TrimStart(s: string): (r: string)
    ensures |r| <= |s| && r == s[|s| - |r|..]
    ensures forall i :: 0 <= i < |s| - |r| ==> IsTrimmable(s[i])
    ensures |r| == 0 || !IsTrimmable(r[0])
  {
    if |s| > 0 && IsTrimmable(s[0]) then TrimStart(s[1..]) else s
  }

  /** `s` with its trailing trimmable characters removed. */
  function TrimEnd(s: string): (r: string)
    ensures |r| <= |s| && r == s[..|r|]
    ensures forall i :: |r| <= i < |s| ==> IsTrimmable(s[i])
    ensures |r| == 0 || !IsTrimmable(r[|r| - 1])
  {
    if |s| > 0 && IsTrimmable(s[|s| - 1]) then TrimEnd(s[..|s| - 1]) else s
  }

  /** Java's `String.trim()`: leading and trailing characters up to the space removed. */
  function Trim(s: string): string {
    TrimEnd(TrimStart(s))
  }

  /** `trim()` leaves nothing exactly when every character is trimmable. */
  lemma TrimEmptyIffBlank(s: string)
    ensures |Trim(s)| == 0 <==> IsBlank(s)
  {
    var t := TrimStart(s);
    if |t| > 0 {
      assert !IsTrimmable(s[|s| - |t|]);
      assert |TrimEnd(t)| > 0;
    }
  }

  /**
    Hibernate's `@NotBlank`: the value is not `null` and `trim()` leaves at
    least one character, that is, some character is above the space.
   */
  predicate NotBlank(s: Option<string>) {
    s.Some? && !IsBlank(s.value)
  }

  /** `NotBlank` is the validator's own test: not `null`, and `trim()` leaves something. */
  lemma NotBlankIsTrimNonEmpty(s: Option<string>)
    ensures NotBlank(s) <==> s.Some? && |Trim(s.value)| > 0
  {
    if s.Some? {
      TrimEmptyIffBlank(s.value);
    }
  }

  /**
    The length Java's `String.length()` reports for `s`, which counts UTF-16
    code units: a character above U+FFFF is stored as a surrogate pair and
    counts twice, every other character once.
   */
  function Utf16Length(s: string): (n: nat)
    ensures |s| <= n <= 2 * |s|
    ensures n == |s| <==> forall i :: 0 <= i < |s| ==> s[i] <= '\U{FFFF}'
  {
    if |s| == 0 then 0
    else
      var rest := Utf16Length(s[1..]);
      assert forall i :: 1 <= i < |s| ==> s[i] == s[1..][i - 1];
      (if s[0] <= '\U{FFFF}' then 1 else 2) + rest
  }

  /** `c` is in the character class `[a-zA-Z0-9]`. */
  predicate IsAsciiAlnum(c: char) {
    ('a' <= c <= 'z') || ('A' <= c <= 'Z') || ('0' <= c <= '9')
  }

  /** `s` matches `^[a-zA-Z0-9]+$` as a whole: one or more ASCII letters or digits. */
  predicate IsAlnumWord(s: string) {
    |s| > 0 && forall i :: 0 <= i < |s| ==> IsAsciiAlnum(s[i])
  }

  /** `@Pattern(regexp = "^[a-zA-Z0-9]+$")`: a `null` value is valid, any other must match. */
  predicate MatchesAlnumPattern(s: Option<string>) {
    s.None? || IsAlnumWord(s.value)
  }

  /**
    `@Pattern` lets `null` through, rejects the empty string (the `+` needs a
    character), and whatever non-`null` value it accepts also passes `@NotBlank`.
   */
  lemma AlnumPatternAcceptance(s: Option<string>)
    ensures s.None? ==> MatchesAlnumPattern(s)
    ensures s == Some("") ==> !MatchesAlnumPattern(s)
    ensures s.Some? && MatchesAlnumPattern(s) ==> NotBlank(s)
  {
    if s.Some? && MatchesAlnumPattern(s) {
      AlnumWordIsNotBlank(s.value);
    }
  }

  /** A string whose first character is printable is not blank. */
  lemma PrintableStartIsNotBlank(s: string)
    requires |s| > 0 && !IsTrimmable(s[0])
    ensures NotBlank(Some(s))
  {
  }

  /** A value matching the alphanumeric pattern is never blank. */
  lemma AlnumWordIsNotBlank(s: string)
    requires IsAlnumWord(s)
    ensures NotBlank(Some(s))
  {
    assert !IsTrimmable(s[0]);
  }

  /**
    Bean Validation's `@GroupSequence`: the groups are validated in order and
    validation stops at the first group that has a violation; its violations
    are the result. No violation in any group gives the empty set.
   */
  function FirstFailingGroup<T>(groups: seq<set<T>>): (r: set<T>)
    ensures r == {} <==> forall i :: 0 <= i < |groups| ==> groups[i] == {}
    ensures r != {} ==> exists i :: 0 <= i < |groups| && r == groups[i] && forall j :: 0 <= j < i ==> groups[j] == {}
  {
    if |groups| == 0 then {}
    else if groups[0] != {} then groups[0]
    else
      var rest := FirstFailingGroup(groups[1..]);
      assert forall i :: 1 <= i < |groups| ==> groups[i] == groups[1..][i - 1];
      rest
  }

  /** A sequence of three groups reports the first of them that has a violation. */
  lemma {:induction false} FirstFailingOfThree<T>(a: set<T>, b: set<T>, c: set<T>)
    ensures FirstFailingGroup([a, b, c]) == if a != {} then a else if b != {} then b else c
  {
    if a == {} {
      assert [a, b, c][1..] == [b, c];
      assert FirstFailingGroup([a, b, c]) == FirstFailingGroup([b, c]);
      if b == {} {
        assert [b, c][1..] == [c];
        assert FirstFailingGroup([b, c]) == FirstFailingGroup([c]);
        if c == {} {
          assert [c][1..] == [];
          assert FirstFailingGroup([c]) == FirstFailingGroup([]);
        }
      }
    }
  }
}
