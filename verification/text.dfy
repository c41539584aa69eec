/**
 * The string operations of Python's `str` that the navigator relies on:
 * `strip`, `lower`/`upper` (ASCII letters only), `startswith`/`endswith`,
 * substring `in`, `split(sep)`, the digit runs found by `re.findall(r'\d+')`,
 * and `int()` on an ASCII string.
 */
module Text {
  import opened Lists

  /** The characters for which Python's `str.isspace()` holds. */
  predicate IsSpace(c: char) {
    c == ' ' || ('\t' <= c <= '\r') || ('\U{1c}' <= c <= '\U{1f}')
    || c == '\U{85}' || c == '\U{a0}' || c == '\U{1680}'
    || ('\U{2000}' <= c <= '\U{200a}') || c == '\U{2028}' || c == '\U{2029}'
    || c == '\U{202f}' || c == '\U{205f}' || c == '\U{3000}'
  }

  predicate AllSpace(s: string) {
    forall i :: 0 <= i < |s| ==> IsSpace(s[i])
  }

  /** The number of whitespace characters at the front of `s`. */
  function LeadingSpaces(s: string): (n: nat)
    ensures n <= |s|
  {
    if |s| > 0 && IsSpace(s[0]) then 1 + LeadingSpaces(s[1..]) else 0
  }

  /** The number of whitespace characters at the end of `s`. */
  function TrailingSpaces(s: string): (n: nat)
    ensures n <= |s|
  {
    if |s| > 0 && IsSpace(s[|s| - 1]) then 1 + TrailingSpaces(s[..|s| - 1]) else 0
  }

  /** Python's `s.strip()`: `s` without its leading and trailing whitespace. */
  function Strip(s: string): string {
    var t := s[LeadingSpaces(s)..];
    t[..|t| - TrailingSpaces(t)]
  }

  lemma {:induction false} LeadingSpacesShape(s: string)
    ensures AllSpace(s[..LeadingSpaces(s)])
    ensures LeadingSpaces(s) == |s| || !IsSpace(s[LeadingSpaces(s)])
  {
    if |s| > 0 && IsSpace(s[0]) {
      LeadingSpacesShape(s[1..]);
      var n := LeadingSpaces(s[1..]);
      var front, rest := s[..n + 1], s[1..][..n];
      forall i | 0 <= i < |front|
        ensures IsSpace(front[i])
      {
        if i > 0 {
          assert front[i] == rest[i - 1];
        }
      }
    }
  }

  lemma {:induction false} TrailingSpacesShape(s: string)
    ensures AllSpace(s[|s| - TrailingSpaces(s)..])
    ensures TrailingSpaces(s) == |s| || !IsSpace(s[|s| - TrailingSpaces(s) - 1])
  {
    if |s| > 0 && IsSpace(s[|s| - 1]) {
      var init := s[..|s| - 1];
      TrailingSpacesShape(init);
      var n := TrailingSpaces(init);
      var back, rest := s[|s| - (n + 1)..], init[|init| - n..];
      forall i | 0 <= i < |back|
        ensures IsSpace(back[i])
      {
        if i < n {
          assert back[i] == rest[i];
        }
      }
    }
  }

  /** Where `Strip(s)` starts within `s`. */
  function StripOffset(s: string): (a: nat)
    ensures a + |Strip(s)| <= |s|
    ensures Strip(s) == s[a..a + |Strip(s)|]
  {
    LeadingSpaces(s)
  }

  /** `Strip(s)` is the slice of `s` that has whitespace on neither side and none at its ends. */
  lemma StripShape(s: string)
    ensures AllSpace(s[..StripOffset(s)])
    ensures AllSpace(s[StripOffset(s) + |Strip(s)|..])
    ensures Strip(s) == [] || (!IsSpace(Strip(s)[0]) && !IsSpace(Strip(s)[|Strip(s)| - 1]))
  {
    var a := LeadingSpaces(s);
    var t := s[a..];
    LeadingSpacesShape(s);
    TrailingSpacesShape(t);
    var r := Strip(s);
    assert s[a + |r|..] == t[|t| - TrailingSpaces(t)..];
    if r != [] {
      assert r[0] == s[a];
      assert r[|r| - 1] == t[|t| - TrailingSpaces(t) - 1];
    }
  }

  lemma {:induction false} LeadingSpacesNone(s: string)
    requires s == [] || !IsSpace(s[0])
    ensures LeadingSpaces(s) == 0
  {
  }

  lemma {:induction false} TrailingSpacesNone(s: string)
    requires s == [] || !IsSpace(s[|s| - 1])
    ensures TrailingSpaces(s) == 0
  {
  }

  lemma StripUnchanged(s: string)
    requires s == [] || (!IsSpace(s[0]) && !IsSpace(s[|s| - 1]))
    ensures Strip(s) == s
  {
    LeadingSpacesNone(s);
    assert s[0..] == s;
    TrailingSpacesNone(s);
  }

  lemma StripIdempotent(s: string)
    ensures Strip(Strip(s)) == Strip(s)
  {
    StripShape(s);
    StripUnchanged(Strip(s));
  }

  /** A character absent from `s` is absent from `Strip(s)`. */
  lemma StripKeepsAbsent(s: string, c: char)
    requires c !in s
    ensures c !in Strip(s)
  {
    var r, i := Strip(s), StripOffset(s);
    forall k | 0 <= k < |r|
      ensures r[k] != c
    {
      assert r[k] == s[i + k];
    }
  }

  function LowerChar(c: char): char {
    if 'A' <= c <= 'Z' then (c as int + 32) as char else c
  }

  function UpperChar(c: char): char {
    if 'a' <= c <= 'z' then (c as int - 32) as char else c
  }

  /** Python's `s.lower()` restricted to ASCII letters. */
  function Lower(s: string): (r: string)
    ensures |r| == |s| && forall i :: 0 <= i < |s| ==> r[i] == LowerChar(s[i])
  {
    seq(|s|, i requires 0 <= i < |s| => LowerChar(s[i]))
  }

  /** Python's `s.upper()` restricted to ASCII letters. */
  function Upper(s: string): (r: string)
    ensures |r| == |s| && forall i :: 0 <= i < |s| ==> r[i] == UpperChar(s[i])
  {
    seq(|s|, i requires 0 <= i < |s| => UpperChar(s[i]))
  }

  predicate StartsWith(s: string, prefix: string) {
    |prefix| <= |s| && s[..|prefix|] == prefix
  }

  predicate EndsWith(s: string, suffix: string) {
    |suffix| <= |s| && s[|s| - |suffix|..] == suffix
  }

  predicate OccursAt(s: string, needle: string, i: nat) {
    i + |needle| <= |s| && s[i..i + |needle|] == needle
  }

  /** Python's `needle in s` on strings. */
  predicate Contains(s: string, needle: string) {
    exists i: nat :: i <= |s| && OccursAt(s, needle, i)
  }

  /** Python's `s.find(sep, start)`, -1 when absent. */
  function IndexFrom(s: string, sep: string, start: nat): (r: int)
    requires |sep| > 0
    ensures r == -1 || (start <= r && OccursAt(s, sep, r))
    ensures r == -1 ==> forall i: nat :: start <= i ==> !OccursAt(s, sep, i)
    ensures r >= 0 ==> forall i: nat :: start <= i < r ==> !OccursAt(s, sep, i)
    decreases |s| - start
  {
    if start + |sep| > |s| then -1
    else if s[start..start + |sep|] == sep then start
    else IndexFrom(s, sep, start + 1)
  }

  function IndexOf(s: string, sep: string): (r: int)
    requires |sep| > 0
    ensures r == -1 || (r >= 0 && OccursAt(s, sep, r))
    ensures r == -1 <==> !Contains(s, sep)
    ensures r >= 0 ==> forall i: nat :: i < r ==> !OccursAt(s, sep, i)
  {
    IndexFrom(s, sep, 0)
  }

  lemma OccursAtChar(s: string, c: char, i: nat)
    ensures OccursAt(s, [c], i) <==> i < |s| && s[i] == c
  {
    if i < |s| && s[i] == c {
      assert s[i..i + 1] == [c];
    }
  }

  lemma ContainsChar(s: string, c: char)
    ensures Contains(s, [c]) <==> c in s
  {
    if c in s {
      var i :| 0 <= i < |s| && s[i] == c;
      OccursAtChar(s, c, i);
    }
    if Contains(s, [c]) {
      var i: nat :| i <= |s| && OccursAt(s, [c], i);
      OccursAtChar(s, c, i);
    }
  }

  /** Python's `s.split(sep)` for a non-empty separator. */
  function Split(s: string, sep: string): (parts: seq<string>)
    requires |sep| > 0
    ensures |parts| >= 1
    ensures !Contains(s, sep) ==> parts == [s]
    ensures Contains(s, sep) ==> |parts| >= 2 && parts[0] == s[..IndexOf(s, sep)]
    decreases |s|
  {
    var i := IndexOf(s, sep);
    if i < 0 then [s] else [s[..i]] + Split(s[i + |sep|..], sep)
  }

  /** Python's `sep.join(parts)`. */
  function Join(parts: seq<string>, sep: string): string
    decreases |parts|
  {
    if |parts| == 0 then ""
    else if |parts| == 1 then parts[0]
    else parts[0] + sep + Join(parts[1..], sep)
  }

  /** Splitting and joining again with the same separator gives back the string. */
  lemma {:induction false} SplitJoin(s: string, sep: string)
    requires |sep| > 0
    ensures Join(Split(s, sep), sep) == s
    decreases |s|
  {
    var i := IndexOf(s, sep);
    if i >= 0 {
      var rest := s[i + |sep|..];
      SplitJoin(rest, sep);
      assert Split(s, sep) == [s[..i]] + Split(rest, sep);
      SliceAround(s, i, i + |sep|);
    }
  }

  lemma SliceAround(s: string, i: nat, j: nat)
    requires i <= j <= |s|
    ensures s == s[..i] + s[i..j] + s[j..]
  {
  }

  /** No part produced by `Split` contains the separator. */
  lemma {:induction false} SplitPartsFree(s: string, sep: string)
    requires |sep| > 0
    ensures forall k :: 0 <= k < |Split(s, sep)| ==> !Contains(Split(s, sep)[k], sep)
    decreases |s|
  {
    var i := IndexOf(s, sep);
    if i >= 0 {
      var rest := s[i + |sep|..];
      SplitPartsFree(rest, sep);
      PrefixBeforeFirstIsFree(s, sep, i);
      var parts, tail := Split(s, sep), Split(rest, sep);
      assert parts == [s[..i]] + tail;
      forall k | 0 <= k < |parts|
        ensures !Contains(parts[k], sep)
      {
        if k > 0 {
          assert parts[k] == tail[k - 1];
        }
      }
    }
  }

  /** Text before the first occurrence of `sep` does not contain `sep`. */
  lemma PrefixBeforeFirstIsFree(s: string, sep: string, i: nat)
    requires |sep| > 0 && i <= |s|
    requires forall j: nat :: j < i ==> !OccursAt(s, sep, j)
    ensures !Contains(s[..i], sep)
  {
    forall j: nat | j <= i
      ensures !OccursAt(s[..i], sep, j)
    {
      if j + |sep| <= i {
        assert !OccursAt(s, sep, j);
        assert s[..i][j..j + |sep|] == s[j..j + |sep|];
      }
    }
  }

  lemma {:induction false} JoinEndsWithLast(parts: seq<string>, sep: string)
    requires |parts| > 0
    ensures EndsWith(Join(parts, sep), Last(parts))
    decreases |parts|
  {
    if |parts| > 1 {
      JoinEndsWithLast(parts[1..], sep);
      var tail := Join(parts[1..], sep);
      var whole := parts[0] + sep + tail;
      assert whole[|whole| - |tail|..] == tail;
      assert Last(parts[1..]) == Last(parts);
      assert whole[|whole| - |Last(parts)|..] == tail[|tail| - |Last(parts)|..];
    }
  }

  /** The last part of `Split(s, sep)` is a suffix of `s` (Python's `endswith`). */
  lemma SplitLastIsSuffix(s: string, sep: string)
    requires |sep| > 0
    ensures EndsWith(s, Last(Split(s, sep)))
  {
    SplitJoin(s, sep);
    JoinEndsWithLast(Split(s, sep), sep);
  }

  // ---------------------------------------------------------------------
  // Reply lines.

  /** `[x.strip() for x in lines if x.strip()]`: the non-blank lines, stripped. */
  function NonBlank(lines: seq<string>): seq<string> {
    if |lines| == 0 then []
    else
      var rest := NonBlank(lines[..|lines| - 1]);
      var x := Strip(Last(lines));
      if x == "" then rest else rest + [x]
  }

  /** The non-blank lines are exactly the stripped lines that are not blank. */
  lemma {:induction false} NonBlankMembers(lines: seq<string>)
    ensures |NonBlank(lines)| <= |lines|
    ensures forall x :: x in NonBlank(lines) ==> x != "" && exists l :: l in lines && Strip(l) == x
    ensures forall l :: l in lines && Strip(l) != "" ==> Strip(l) in NonBlank(lines)
  {
    if |lines| > 0 {
      var init := lines[..|lines| - 1];
      NonBlankMembers(init);
      assert forall l :: l in lines ==> l in init || l == Last(lines);
      assert forall l :: l in init ==> l in lines;
    }
  }

  /** The lines of a reply: its text stripped, split at newlines, blank lines dropped. */
  function ReplyLines(text: string): seq<string> {
    NonBlank(Split(Strip(text), "\n"))
  }

  // ---------------------------------------------------------------------
  // Digit runs: re.findall(r'\d+', s) read with int().

  predicate IsDigit(c: char) { '0' <= c <= '9' }

  function DigitValue(c: char): nat {
    if IsDigit(c) then c as int - '0' as int else 0
  }

  /** The decimal value of a string of digits. */
  function DecimalValue(ds: string): nat
    decreases |ds|
  {
    if |ds| == 0 then 0 else DecimalValue(ds[..|ds| - 1]) * 10 + DigitValue(ds[|ds| - 1])
  }

  /** The number of digits at the front of `s`. */
  function LeadingDigits(s: string): (n: nat)
    ensures n <= |s|
    ensures forall i :: 0 <= i < n ==> IsDigit(s[i])
    ensures n == |s| || !IsDigit(s[n])
  {
    if |s| > 0 && IsDigit(s[0]) then 1 + LeadingDigits(s[1..]) else 0
  }

  /** The maximal runs of ASCII digits in `s`, left to right, read as naturals. */
  function DigitRuns(s: string): seq<nat>
    decreases |s|
  {
    if |s| == 0 then []
    else if !IsDigit(s[0]) then DigitRuns(s[1..])
    else
      var n := LeadingDigits(s);
      [DecimalValue(s[..n])] + DigitRuns(s[n..])
  }

  predicate NoDigits(s: string) {
    forall i :: 0 <= i < |s| ==> !IsDigit(s[i])
  }

  predicate AllDigits(s: string) {
    forall i :: 0 <= i < |s| ==> IsDigit(s[i])
  }

  lemma {:induction false} DigitRunsOfNoDigits(s: string)
    requires NoDigits(s)
    ensures DigitRuns(s) == []
    decreases |s|
  {
    if |s| > 0 {
      DigitRunsOfNoDigits(s[1..]);
    }
  }

  lemma DigitRunsOfDigits(s: string)
    requires |s| > 0 && AllDigits(s)
    ensures DigitRuns(s) == [DecimalValue(s)]
  {
    assert LeadingDigits(s) == |s|;
    assert s[..|s|] == s;
  }

  /** Text without digits in front of `s` adds no digit run. */
  lemma {:induction false} DigitRunsSkipPrefix(p: string, s: string)
    requires NoDigits(p)
    ensures DigitRuns(p + s) == DigitRuns(s)
    decreases |p|
  {
    if |p| > 0 {
      assert (p + s)[0] == p[0] && (p + s)[1..] == p[1..] + s;
      DigitRunsSkipPrefix(p[1..], s);
    } else {
      assert p + s == s;
    }
  }

  // ---------------------------------------------------------------------
  // Python's int() on an ASCII string.

  /** Digits with single underscores between them, as `int()` accepts. */
  predicate DigitGroups(s: string) {
    |s| > 0 && IsDigit(s[0]) && IsDigit(s[|s| - 1])
    && (forall i :: 0 <= i < |s| ==> IsDigit(s[i]) || s[i] == '_')
    && (forall i :: 0 <= i < |s| - 1 ==> !(s[i] == '_' && s[i + 1] == '_'))
  }

  /** The digits of `s` with every underscore dropped. */
  function WithoutUnderscores(s: string): (r: string)
    ensures |r| <= |s|
  {
    if |s| == 0 then "" else (if s[0] == '_' then "" else [s[0]]) + WithoutUnderscores(s[1..])
  }

  lemma {:induction false} WithoutUnderscoresUnchanged(s: string)
    requires '_' !in s
    ensures WithoutUnderscores(s) == s
  {
    if |s| > 0 {
      WithoutUnderscoresUnchanged(s[1..]);
    }
  }

  /**
   * Python's `int(s)` for an ASCII string: surrounding whitespace, an optional
   * sign, then digit groups; `None` where `int()` raises ValueError.
   */
  function IntLiteral(s: string): Option<int> {
    SignedDigits(Strip(s))
  }

  /** `int()` on text that has already been stripped. */
  function SignedDigits(t: string): Option<int> {
    if |t| > 0 && (t[0] == '+' || t[0] == '-') then
      var body := t[1..];
      if DigitGroups(body) then
        var v: int := DecimalValue(WithoutUnderscores(body));
        Some(if t[0] == '-' then -v else v)
      else None
    else if DigitGroups(t) then Some(DecimalValue(WithoutUnderscores(t)))
    else None
  }

  /**
   * Without an underscore, a positive integer that `int()` reads is exactly
   * the first digit run of the same text.
   */
  lemma IntLiteralIsFirstRun(s: string)
    requires '_' !in s
    requires IntLiteral(s).Some? && IntLiteral(s).value >= 1
    ensures DigitRuns(s) != [] && DigitRuns(s)[0] == IntLiteral(s).value
  {
    var front, back := StripFrontBack(s);
    StripKeepsAbsent(s, '_');
    var t := Strip(s);
    var sign, core := SignedDigitsParts(t);
    ConcatRegroup(front, sign, core, back);
    NoDigitsConcat(front, sign);
    FirstRunAfter(s, front + sign, core, back);
  }

  lemma ConcatRegroup(a: string, b: string, c: string, d: string)
    ensures a + (b + c) + d == (a + b) + c + d
  {
  }

  lemma NoDigitsConcat(a: string, b: string)
    requires NoDigits(a) && NoDigits(b)
    ensures NoDigits(a + b)
  {
  }

  /** A positive value read without underscores is an optional sign followed by its digits. */
  lemma SignedDigitsParts(t: string) returns (sign: string, core: string)
    requires '_' !in t
    requires SignedDigits(t).Some? && SignedDigits(t).value >= 1
    ensures t == sign + core && NoDigits(sign)
    ensures |core| > 0 && AllDigits(core) && DecimalValue(core) == SignedDigits(t).value
  {
    core := if t[0] == '+' || t[0] == '-' then t[1..] else t;
    sign := t[..|t| - |core|];
    assert t == sign + core;
    WithoutUnderscoresUnchanged(core);
  }

  lemma SpaceIsNotDigit(c: char)
    requires IsSpace(c)
    ensures !IsDigit(c)
  {
  }

  lemma SpacesHaveNoDigits(s: string)
    requires AllSpace(s)
    ensures NoDigits(s)
  {
    forall i | 0 <= i < |s|
      ensures !IsDigit(s[i])
    {
      SpaceIsNotDigit(s[i]);
    }
  }

  /** The whitespace `Strip` removes from either end of `s` holds no digit. */
  lemma StripFrontBack(s: string) returns (front: string, back: string)
    ensures s == front + Strip(s) + back
    ensures NoDigits(front) && NoDigits(back)
  {
    var a := StripOffset(s);
    var b := a + |Strip(s)|;
    front, back := s[..a], s[b..];
    StripShape(s);
    SliceAround(s, a, b);
    SpacesHaveNoDigits(front);
    SpacesHaveNoDigits(back);
  }

  lemma ConcatAssoc(a: string, b: string, c: string)
    ensures a + (b + c) == a + b + c
  {
  }

  lemma FirstRunAfter(s: string, front: string, core: string, back: string)
    requires s == front + core + back
    requires NoDigits(front) && |core| > 0 && AllDigits(core) && NoDigits(back)
    ensures DigitRuns(s) != [] && DigitRuns(s)[0] == DecimalValue(core)
  {
    DigitRunsSkipPrefix(front, core + back);
    DigitRunsAppend(core, back);
    ConcatAssoc(front, core, back);
  }

  /** A non-empty digit string followed by anything starts with one run of exactly those digits or more. */
  lemma DigitRunsAppend(d: string, rest: string)
    requires |d| > 0 && AllDigits(d)
    requires NoDigits(rest)
    ensures DigitRuns(d + rest) != [] && DigitRuns(d + rest)[0] == DecimalValue(d)
  {
    var s := d + rest;
    assert LeadingDigits(s) == |d| by {
      LeadingDigitsOfRun(d, rest);
    }
    assert s[..|d|] == d;
  }

  lemma {:induction false} LeadingDigitsOfRun(d: string, rest: string)
    requires AllDigits(d)
    requires NoDigits(rest)
    ensures LeadingDigits(d + rest) == |d|
    decreases |d|
  {
    if |d| > 0 {
      assert (d + rest)[1..] == d[1..] + rest;
      LeadingDigitsOfRun(d[1..], rest);
    } else {
      assert d + rest == rest;
    }
  }

  // ---------------------------------------------------------------------
  // What lower-casing and stripping do to the digit runs.

  lemma LowerCharDigit(c: char)
    ensures IsDigit(LowerChar(c)) <==> IsDigit(c)
    ensures IsDigit(c) ==> LowerChar(c) == c
  {
  }

  lemma {:induction false} LeadingDigitsLower(s: string)
    ensures LeadingDigits(Lower(s)) == LeadingDigits(s)
    decreases |s|
  {
    if |s| > 0 {
      LowerCharDigit(s[0]);
      assert Lower(s)[1..] == Lower(s[1..]);
      LeadingDigitsLower(s[1..]);
    }
  }

  /** Lower-casing leaves the digit runs as they are. */
  lemma {:induction false} DigitRunsLower(s: string)
    ensures DigitRuns(Lower(s)) == DigitRuns(s)
    decreases |s|
  {
    if |s| > 0 {
      var l := Lower(s);
      LowerCharDigit(s[0]);
      if !IsDigit(s[0]) {
        assert l[1..] == Lower(s[1..]);
        DigitRunsLower(s[1..]);
      } else {
        var n := LeadingDigits(s);
        LeadingDigitsLower(s);
        forall i | 0 <= i < n
          ensures l[i] == s[i]
        {
          LowerCharDigit(s[i]);
        }
        assert l[..n] == s[..n];
        assert l[n..] == Lower(s[n..]);
        DigitRunsLower(s[n..]);
      }
    }
  }

  lemma {:induction false} LeadingDigitsBeforeNoDigits(t: string, back: string)
    requires NoDigits(back)
    ensures LeadingDigits(t + back) == LeadingDigits(t)
    decreases |t|
  {
    if |t| == 0 {
      assert t + back == back;
    } else if IsDigit(t[0]) {
      assert (t + back)[1..] == t[1..] + back;
      LeadingDigitsBeforeNoDigits(t[1..], back);
    }
  }

  /** Text without digits after `t` adds no digit run. */
  lemma {:induction false} DigitRunsDropSuffix(t: string, back: string)
    requires NoDigits(back)
    ensures DigitRuns(t + back) == DigitRuns(t)
    decreases |t|
  {
    var s := t + back;
    if |t| == 0 {
      assert s == back;
      DigitRunsOfNoDigits(back);
    } else if !IsDigit(t[0]) {
      assert s[1..] == t[1..] + back;
      DigitRunsDropSuffix(t[1..], back);
    } else {
      var n := LeadingDigits(t);
      LeadingDigitsBeforeNoDigits(t, back);
      assert s[..n] == t[..n];
      assert s[n..] == t[n..] + back;
      DigitRunsDropSuffix(t[n..], back);
    }
  }

  /** Stripping leaves the digit runs as they are. */
  lemma DigitRunsStrip(s: string)
    ensures DigitRuns(Strip(s)) == DigitRuns(s)
  {
    var front, back := StripFrontBack(s);
    var t := Strip(s);
    ConcatAssoc(front, t, back);
    DigitRunsSkipPrefix(front, t + back);
    DigitRunsDropSuffix(t, back);
  }

  /** Text without digits is not an integer literal. */
  lemma NoDigitsNoInt(s: string)
    requires NoDigits(s)
    ensures IntLiteral(s).None?
  {
    var front, back := StripFrontBack(s);
    var t := Strip(s);
    assert forall i :: 0 <= i < |t| ==> t[i] == s[|front| + i];
  }

  /** Lower-casing keeps a character out if it was out, for `_`. */
  lemma LowerKeepsUnderscoreOut(s: string)
    requires '_' !in s
    ensures '_' !in Lower(s)
  {
  }
}
