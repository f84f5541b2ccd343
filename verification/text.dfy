/** Character classes and string operations with the meaning Python gives them
    in the modelled code: `str.strip`, `str.split()`, `re.split` on a run of a
    character class, `re.sub(r"\s+", " ", ...)`, `str.replace` and substring
    tests.  Strings are sequences of Unicode scalar values, as Python's are. */
module Text {

  /** An ASCII decimal digit (the model reads `\d` and `str.isdigit` as ASCII). */
  predicate IsDigit(c: char) {
    '0' <= c <= '9'
  }

  predicate IsAsciiUpper(c: char) {
    'A' <= c <= 'Z'
  }

  predicate IsAsciiLower(c: char) {
    'a' <= c <= 'z'
  }

  /** `[a-zA-Z]` */
  predicate IsAsciiLetter(c: char) {
    IsAsciiUpper(c) || IsAsciiLower(c)
  }

  /** The characters for which Python's `str.isspace` holds; the `\s` class of
      a `re` pattern over `str` is the same set. */
  predicate IsSpace(c: char) {
    c == ' ' || ('\t' <= c <= '\r') || ('\U{1C}' <= c <= '\U{1F}') || c == '\U{85}' ||
    c == '\U{A0}' || c == '\U{1680}' || ('\U{2000}' <= c <= '\U{200A}') ||
    c == '\U{2028}' || c == '\U{2029}' || c == '\U{202F}' || c == '\U{205F}' || c == '\U{3000}'
  }

  predicate AllDigits(s: string) {
    forall k :: 0 <= k < |s| ==> IsDigit(s[k])
  }

  /** `re.fullmatch(r"\d{6}", s)` */
  predicate IsSixDigits(s: string) {
    |s| == 6 && AllDigits(s)
  }

  function DigitValue(c: char): (d: nat)
    requires IsDigit(c)
    ensures d < 10
  {
    c as int - '0' as int
  }

  /** The value of a run of decimal digits, most significant first (`int(s)`). */
  function DecimalValue(s: string): nat
    requires AllDigits(s)
  {
    if |s| == 0 then 0 else 10 * DecimalValue(s[..|s| - 1]) + DigitValue(s[|s| - 1])
  }

  function LowerChar(c: char): (r: char)
    ensures IsAsciiUpper(c) ==> IsAsciiLower(r)
    ensures !IsAsciiUpper(c) ==> r == c
  {
    if IsAsciiUpper(c) then (c as int + 32) as char else c
  }

  function UpperChar(c: char): (r: char)
    ensures IsAsciiLower(c) ==> IsAsciiUpper(r)
    ensures !IsAsciiLower(c) ==> r == c
  {
    if IsAsciiLower(c) then (c as int - 32) as char else c
  }

  /** `str.lower` on the ASCII letters. */
  function Lower(s: string): (r: string)
    ensures |r| == |s|
    ensures forall k :: 0 <= k < |s| ==> r[k] == LowerChar(s[k])
  {
    seq(|s|, k requires 0 <= k < |s| => LowerChar(s[k]))
  }

  /** `str.upper` on the ASCII letters. */
  function Upper(s: string): (r: string)
    ensures |r| == |s|
    ensures forall k :: 0 <= k < |s| ==> r[k] == UpperChar(s[k])
  {
    seq(|s|, k requires 0 <= k < |s| => UpperChar(s[k]))
  }

  predicate StartsWith(s: string, prefix: string) {
    |prefix| <= |s| && s[..|prefix|] == prefix
  }

  /** `sub in s` */
  predicate Contains(s: string, sub: string)
    decreases |s|
  {
    StartsWith(s, sub) || (|s| > 0 && Contains(s[1..], sub))
  }

  /** `sub in s` for a one-character `sub`. */
  lemma {:induction false} ContainsChar(s: string, c: char)
    ensures Contains(s, [c]) <==> c in s
    decreases |s|
  {
    if |s| > 0 {
      ContainsChar(s[1..], c);
      assert c in s <==> s[0] == c || c in s[1..] by {
        assert s == [s[0]] + s[1..];
      }
    }
  }

  /** A longer string containing `sub` contains every infix of `sub`. */
  lemma {:induction false} ContainsInfix(s: string, sub: string, i: nat, j: nat)
    requires i <= j <= |sub|
    requires Contains(s, sub)
    ensures Contains(s, sub[i..j])
    decreases |s|
  {
    if StartsWith(s, sub) {
      assert s[i..j] == sub[i..j] by {
        forall k | 0 <= k < j - i ensures s[i..j][k] == sub[i..j][k] {
          assert s[i + k] == s[..|sub|][i + k];
        }
      }
      ContainsAt(s, sub[i..j], i);
    } else {
      ContainsInfix(s[1..], sub, i, j);
    }
  }

  /** An occurrence of `sub` at offset `at` makes `Contains` true. */
  lemma {:induction false} ContainsAt(s: string, sub: string, at: nat)
    requires at + |sub| <= |s| && s[at..at + |sub|] == sub
    ensures Contains(s, sub)
    decreases at
  {
    if at > 0 {
      assert s[1..][at - 1..at - 1 + |sub|] == s[at..at + |sub|];
      ContainsAt(s[1..], sub, at - 1);
    }
  }

  /** Number of whitespace characters at the front of `s`. */
  function LeadingSpaces(s: string): (n: nat)
    ensures n <= |s|
    ensures forall k :: 0 <= k < n ==> IsSpace(s[k])
    ensures n < |s| ==> !IsSpace(s[n])
    decreases |s|
  {
    if |s| > 0 && IsSpace(s[0]) then 1 + LeadingSpaces(s[1..]) else 0
  }

  /** Number of whitespace characters at the back of `s`. */
  function TrailingSpaces(s: string): (n: nat)
    ensures n <= |s|
    ensures forall k :: |s| - n <= k < |s| ==> IsSpace(s[k])
    ensures n < |s| ==> !IsSpace(s[|s| - 1 - n])
    decreases |s|
  {
    if |s| > 0 && IsSpace(s[|s| - 1]) then 1 + TrailingSpaces(s[..|s| - 1]) else 0
  }

  /** Neither end of `s` is whitespace. */
  predicate IsStripped(s: string) {
    |s| == 0 || (!IsSpace(s[0]) && !IsSpace(s[|s| - 1]))
  }

  /** `str.strip()`: `s` without its leading and trailing whitespace. */
  function Strip(s: string): (r: string)
    ensures IsStripped(r)
    ensures |r| <= |s|
    ensures forall c :: c in r ==> c in s
  {
    var t := s[LeadingSpaces(s)..];
    t[..|t| - TrailingSpaces(t)]
  }

  /** What `Strip` removes: a run of whitespace at each end, nothing else. */
  lemma StripCuts(s: string)
    ensures LeadingSpaces(s) + |Strip(s)| <= |s|
    ensures Strip(s) == s[LeadingSpaces(s)..LeadingSpaces(s) + |Strip(s)|]
    ensures forall k :: 0 <= k < LeadingSpaces(s) ==> IsSpace(s[k])
    ensures forall k :: LeadingSpaces(s) + |Strip(s)| <= k < |s| ==> IsSpace(s[k])
  {
    var lead := LeadingSpaces(s);
    var t := s[lead..];
    StripSlice(s, t, lead, |t| - TrailingSpaces(t));
    TrailingAfterStrip(s, t, lead, |t| - TrailingSpaces(t));
  }

  /** `Strip` keeps the middle slice of `s`. */
  lemma StripSlice(s: string, t: string, lead: nat, n: nat)
    requires lead == LeadingSpaces(s) && t == s[lead..] && n == |t| - TrailingSpaces(t)
    ensures Strip(s) == s[lead..lead + n] && |Strip(s)| == n
  {
    assert Strip(s) == t[..n];
    assert t[..n] == s[lead..lead + n];
  }

  /** The characters after the kept middle are the trailing whitespace of
      what follows the leading whitespace. */
  lemma TrailingAfterStrip(s: string, t: string, lead: nat, n: nat)
    requires lead <= |s| && t == s[lead..] && n == |t| - TrailingSpaces(t)
    ensures forall k :: lead + n <= k < |s| ==> IsSpace(s[k])
  {
    forall k | lead + n <= k < |s| ensures IsSpace(s[k]) {
      assert s[k] == t[k - lead];
    }
  }

  /** A string without whitespace at either end is its own strip. */
  lemma StripStripped(s: string)
    requires IsStripped(s)
    ensures Strip(s) == s
  {
    if |s| > 0 {
      assert LeadingSpaces(s) == 0;
      assert TrailingSpaces(s) == 0;
    }
  }

  /** `str.strip` is idempotent. */
  lemma StripIdempotent(s: string)
    ensures Strip(Strip(s)) == Strip(s)
  {
    StripStripped(Strip(s));
  }

  /** A string holding no whitespace strips to itself. */
  lemma StripNoSpace(s: string)
    requires forall c :: c in s ==> !IsSpace(c)
    ensures Strip(s) == s
  {
    StripStripped(s);
  }

  /** Index of the first character satisfying `p`, or `|s|` when none does. */
  function FirstWhere(s: string, p: char -> bool): (i: nat)
    ensures i <= |s|
    ensures forall k :: 0 <= k < i ==> !p(s[k])
    ensures i < |s| ==> p(s[i])
    decreases |s|
  {
    if |s| == 0 then 0 else if p(s[0]) then 0 else 1 + FirstWhere(s[1..], p)
  }

  /** The complement of a character class. */
  function Not(p: char -> bool): char -> bool {
    c => !p(c)
  }

  /** `re.split(r"[<class>]+", s)`: the pieces between maximal runs of
      separator characters, with an empty first (last) piece when `s` starts
      (ends) with a separator, and `[""]` for the empty string. */
  function SplitRuns(s: string, isSep: char -> bool): (parts: seq<string>)
    ensures |parts| >= 1
    ensures forall i, c :: 0 <= i < |parts| && c in parts[i] ==> !isSep(c) && c in s
    decreases |s|
  {
    var i := FirstWhere(s, isSep);
    if i == |s| then [s]
    else
      var j := i + FirstWhere(s[i..], Not(isSep));
      assert j > i;
      var rest := SplitRuns(s[j..], isSep);
      assert forall c :: c in s[..i] ==> !isSep(c) && c in s by {
        forall c | c in s[..i] ensures !isSep(c) && c in s {
          var k :| 0 <= k < i && s[..i][k] == c;
          assert s[k] == c;
        }
      }
      assert forall c :: c in s[j..] ==> c in s;
      [s[..i]] + rest
  }

  /** The first character satisfying `p` in `a + b` is the head of `b` when
      no character of `a` satisfies `p`. */
  lemma {:induction false} FirstWhereAppend(a: string, b: string, p: char -> bool)
    requires forall k :: 0 <= k < |a| ==> !p(a[k])
    requires |b| > 0 && p(b[0])
    ensures FirstWhere(a + b, p) == |a|
    decreases |a|
  {
    if |a| > 0 {
      assert (a + b)[1..] == a[1..] + b;
      FirstWhereAppend(a[1..], b, p);
    }
  }

  /** Joining separator-free, non-empty pieces with a non-empty run of
      separator characters and splitting on runs of separators gives the
      pieces back. */
  lemma {:induction false} SplitRunsJoin(parts: seq<string>, sep: string, isSep: char -> bool)
    requires |parts| > 0 && |sep| > 0
    requires forall k :: 0 <= k < |sep| ==> isSep(sep[k])
    requires forall i :: 0 <= i < |parts| ==> |parts[i]| > 0 && forall k :: 0 <= k < |parts[i]| ==> !isSep(parts[i][k])
    ensures SplitRuns(Join(parts, sep), isSep) == parts
    decreases |parts|
  {
    var s := Join(parts, sep);
    var p0 := parts[0];
    if |parts| == 1 {
      assert FirstWhere(s, isSep) == |s| by {
        assert forall k :: 0 <= k < |s| ==> !isSep(s[k]);
      }
    } else {
      var rest := Join(parts[1..], sep);
      SplitRunsJoin(parts[1..], sep, isSep);
      assert s == p0 + sep + rest;
      assert |rest| > 0 && rest[0] == parts[1][0] by {
        if |parts[1..]| > 1 {
          assert rest == parts[1] + sep + Join(parts[2..], sep);
        }
      }
      SplitRunsStep(p0, sep, rest, isSep);
    }
  }

  /** One step of splitting a joined string: the first piece comes off
      with the separator run that follows it. */
  lemma SplitRunsStep(p0: string, sep: string, rest: string, isSep: char -> bool)
    requires forall k :: 0 <= k < |p0| ==> !isSep(p0[k])
    requires |sep| > 0 && forall k :: 0 <= k < |sep| ==> isSep(sep[k])
    requires |rest| > 0 && !isSep(rest[0])
    ensures SplitRuns(p0 + sep + rest, isSep) == [p0] + SplitRuns(rest, isSep)
  {
    var s := p0 + sep + rest;
    assert s == p0 + (sep + rest);
    FirstWhereAppend(p0, sep + rest, isSep);
    assert s[|p0|..] == sep + rest;
    FirstWhereAppend(sep, rest, Not(isSep));
    assert s[..|p0|] == p0;
    assert s[|p0| + |sep|..] == rest;
  }

  /** `sep.join(parts)` */
  function Join(parts: seq<string>, sep: string): (r: string)
    ensures forall c :: c in r ==> c in sep || exists i :: 0 <= i < |parts| && c in parts[i]
  {
    if |parts| == 0 then "" else if |parts| == 1 then parts[0]
    else parts[0] + sep + Join(parts[1..], sep)
  }

  /** The non-empty strings of `parts`, in order. */
  function NonEmpty(parts: seq<string>): (r: seq<string>)
    ensures forall i :: 0 <= i < |r| ==> |r[i]| > 0
    ensures forall x :: x in r <==> x in parts && |x| > 0
  {
    if |parts| == 0 then []
    else if |parts[0]| == 0 then NonEmpty(parts[1..])
    else [parts[0]] + NonEmpty(parts[1..])
  }

  /** `str.split()` with no argument: the maximal whitespace-free runs of `s`. */
  function Words(s: string): (ws: seq<string>)
    ensures forall i :: 0 <= i < |ws| ==> |ws[i]| > 0
    ensures forall i, c :: 0 <= i < |ws| && c in ws[i] ==> !IsSpace(c)
  {
    var parts := SplitRuns(s, IsSpace);
    NonEmptyKeepsChars(parts, IsSpace);
    NonEmpty(parts)
  }

  /** Dropping the empty parts keeps only characters the parts had. */
  lemma NonEmptyKeepsChars(parts: seq<string>, isSep: char -> bool)
    requires forall i, c :: 0 <= i < |parts| && c in parts[i] ==> !isSep(c)
    ensures forall i, c :: 0 <= i < |NonEmpty(parts)| && c in NonEmpty(parts)[i] ==> !isSep(c)
  {
    var ws := NonEmpty(parts);
    forall i, c | 0 <= i < |ws| && c in ws[i] ensures !isSep(c) {
      assert ws[i] in parts;
      var j :| 0 <= j < |parts| && parts[j] == ws[i];
    }
  }

  /** `re.sub(r"\s+", " ", s)`: every maximal run of whitespace becomes one space. */
  function CollapseSpaces(s: string): (r: string)
    ensures forall c :: c in r ==> c == ' ' || (c in s && !IsSpace(c))
  {
    Join(SplitRuns(s, IsSpace), " ")
  }

  /** `s.replace(from, to)` for one-character `from` and `to`. */
  function ReplaceChar(s: string, from: char, to: char): (r: string)
    ensures |r| == |s|
    ensures forall k :: 0 <= k < |s| ==> r[k] == (if s[k] == from then to else s[k])
  {
    seq(|s|, k requires 0 <= k < |s| => if s[k] == from then to else s[k])
  }

  /** `s.replace(pat, "")`: occurrences of `pat` removed in one left-to-right
      pass over non-overlapping matches. */
  function RemoveAll(s: string, pat: string): (r: string)
    requires |pat| > 0
    ensures |r| <= |s|
    ensures !Contains(s, pat) ==> r == s
    ensures forall c :: c in r ==> c in s
    decreases |s|
  {
    if |s| == 0 then ""
    else if StartsWith(s, pat) then RemoveAll(s[|pat|..], pat)
    else [s[0]] + RemoveAll(s[1..], pat)
  }

  /** Removing `pat` from `s + pat` gives `s` back when `s` holds no
      character that could start an occurrence of `pat`. */
  lemma {:induction false} RemoveAllAppend(s: string, pat: string)
    requires |pat| > 0 && pat[0] !in s
    ensures RemoveAll(s + pat, pat) == s
    decreases |s|
  {
    if |s| == 0 {
      assert StartsWith(pat, pat);
      assert pat[|pat|..] == "";
    } else {
      assert (s + pat)[0] == s[0];
      assert !StartsWith(s + pat, pat);
      assert (s + pat)[1..] == s[1..] + pat;
      RemoveAllAppend(s[1..], pat);
      assert s == [s[0]] + s[1..];
    }
  }

  /** After `s.replace(c, "")` no `c` is left. */
  lemma {:induction false} RemoveAllGone(s: string, c: char)
    ensures c !in RemoveAll(s, [c])
    decreases |s|
  {
    if |s| > 0 {
      if StartsWith(s, [c]) {
        RemoveAllGone(s[1..], c);
      } else {
        assert s[0] != c;
        RemoveAllGone(s[1..], c);
      }
    }
  }

  /** Every character of a contained string occurs in the containing one. */
  lemma ContainsChars(s: string, sub: string)
    requires Contains(s, sub)
    ensures forall c :: c in sub ==> c in s
  {
    forall c | c in sub ensures c in s {
      var k :| 0 <= k < |sub| && sub[k] == c;
      ContainsInfix(s, sub, k, k + 1);
      assert sub[k..k + 1] == [c];
      ContainsChar(s, c);
    }
  }

  /** `sub in s + sub` */
  lemma ContainsAppended(s: string, sub: string)
    ensures Contains(s + sub, sub)
  {
    assert (s + sub)[|s|..|s| + |sub|] == sub;
    ContainsAt(s + sub, sub, |s|);
  }

  /** A string lacking one of the characters of `sub` does not contain `sub`. */
  lemma MissingCharNotContained(s: string, sub: string, k: nat)
    requires k < |sub| && sub[k] !in s
    ensures !Contains(s, sub)
  {
    if Contains(s, sub) {
      ContainsChars(s, sub);
    }
  }
}
