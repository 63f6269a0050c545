/** The Python string operations the core relies on: `str.strip`, `str.split`,
    `str.join`, `str.replace`, `str.startswith`, substring search and `str(int)`. */
module Text {

  /** Python's `str.isspace()`: exactly the characters that `str.strip()` removes
      and that the regular-expression class `\s` matches in a `str` pattern. */
  predicate IsSpace(c: char) {
    c == ' ' || ('\t' <= c <= '\r') || ('\U{1c}' <= c <= '\U{1f}')
    || c == '\U{85}' || c == '\U{a0}' || c == '\U{1680}'
    || ('\U{2000}' <= c <= '\U{200a}') || c == '\U{2028}' || c == '\U{2029}'
    || c == '\U{202f}' || c == '\U{205f}' || c == '\U{3000}'
  }

  predicate AllSpace(s: string) {
    forall i :: 0 <= i < |s| ==> IsSpace(s[i])
  }

  /** No whitespace at either end. */
  predicate Trimmed(s: string) {
    s == [] || (!IsSpace(s[0]) && !IsSpace(s[|s| - 1]))
  }

  /** How many whitespace characters `s` starts with. */
  function LeadingSpace(s: string): (n: nat)
    ensures n <= |s| && AllSpace(s[..n])
    ensures n < |s| ==> !IsSpace(s[n])
    decreases |s|
  {
    if |s| > 0 && IsSpace(s[0]) then 1 + LeadingSpace(s[1..]) else 0
  }

  /** How many whitespace characters `s` ends with. */
  function TrailingSpace(s: string): (n: nat)
    ensures n <= |s| && AllSpace(s[|s| - n..])
    ensures n < |s| ==> !IsSpace(s[|s| - 1 - n])
    decreases |s|
  {
    if |s| > 0 && IsSpace(s[|s| - 1]) then
      var front := s[..|s| - 1];
      var m := TrailingSpace(front);
      assert s[|s| - (1 + m)..] == front[|front| - m..] + [s[|s| - 1]];
      1 + m
    else 0
  }

  /** Leading whitespace that stops inside `a` is not affected by what follows. */
  lemma {:induction false} LeadingSpaceAppend(a: string, b: string)
    requires LeadingSpace(a) < |a|
    ensures LeadingSpace(a + b) == LeadingSpace(a)
    decreases |a|
  {
    if IsSpace(a[0]) {
      LeadingSpaceAppend(a[1..], b);
      assert (a + b)[1..] == a[1..] + b;
    }
  }

  /** `s.strip()`: `s` with its whitespace removed at both ends and nothing else. */
  function Strip(s: string): (r: string)
    ensures Trimmed(r)
    ensures var k := LeadingSpace(s);
      k + |r| <= |s| && r == s[k..k + |r|] && AllSpace(s[..k]) && AllSpace(s[k + |r|..])
  {
    var i := LeadingSpace(s);
    var j := |s| - TrailingSpace(s);
    if j <= i then
      assert s[i..] == s[j..][i - j..];
      ""
    else
      assert s[i..j][0] == s[i] && s[i..j][j - i - 1] == s[j - 1];
      s[i..j]
  }

  /** A non-blank string strips to the text from its first non-whitespace character on,
      so the stripped text starts with that character. */
  lemma StripFirst(s: string)
    requires LeadingSpace(s) < |s|
    ensures |Strip(s)| > 0 && Strip(s)[0] == s[LeadingSpace(s)]
  {
  }

  /** An already trimmed string is its own `strip()`. */
  lemma StripTrimmed(s: string)
    requires Trimmed(s)
    ensures Strip(s) == s
  {
  }

  /** How many characters from `chars` the string starts with. */
  function LeadingIn(s: string, chars: set<char>): (n: nat)
    ensures n <= |s| && forall i | 0 <= i < n :: s[i] in chars
    ensures n < |s| ==> s[n] !in chars
    decreases |s|
  {
    if |s| > 0 && s[0] in chars then 1 + LeadingIn(s[1..], chars) else 0
  }

  /** How many characters from `chars` the string ends with. */
  function TrailingIn(s: string, chars: set<char>): (n: nat)
    ensures n <= |s| && forall i | |s| - n <= i < |s| :: s[i] in chars
    ensures n < |s| ==> s[|s| - 1 - n] !in chars
    decreases |s|
  {
    if |s| > 0 && s[|s| - 1] in chars then 1 + TrailingIn(s[..|s| - 1], chars) else 0
  }

  /** Where the count runs on into an appended string. */
  lemma {:induction false} LeadingInAppend(a: string, b: string, chars: set<char>)
    ensures LeadingIn(a + b, chars) ==
      if LeadingIn(a, chars) < |a| then LeadingIn(a, chars) else |a| + LeadingIn(b, chars)
    decreases |a|
  {
    if |a| > 0 && a[0] in chars {
      LeadingInAppend(a[1..], b, chars);
      assert (a + b)[1..] == a[1..] + b;
    } else if |a| == 0 {
      assert a + b == b;
    }
  }

  /** `s.strip(chars)`: `s` without the characters of `chars` at either end. */
  function StripChars(s: string, chars: set<char>): (r: string)
    ensures r == [] || (r[0] !in chars && r[|r| - 1] !in chars)
    ensures var k := LeadingIn(s, chars);
      k + |r| <= |s| && r == s[k..k + |r|]
      && (forall i | 0 <= i < k :: s[i] in chars)
      && (forall i | k + |r| <= i < |s| :: s[i] in chars)
  {
    var i := LeadingIn(s, chars);
    var j := |s| - TrailingIn(s, chars);
    if j <= i then "" else s[i..j]
  }

  /** Stripping a string that is nothing but `chars` leaves nothing. */
  lemma StripCharsAll(s: string, chars: set<char>)
    requires forall i | 0 <= i < |s| :: s[i] in chars
    ensures StripChars(s, chars) == ""
  {
  }

  /** One stripped character in front, `t` (all stripped characters) behind. */
  lemma StripCharsFramed(c: char, j: string, t: string, chars: set<char>)
    requires c in chars
    requires |j| > 0 && j[0] !in chars && j[|j| - 1] !in chars
    requires forall i | 0 <= i < |t| :: t[i] in chars
    ensures StripChars([c] + j + t, chars) == j
  {
    var s := [c] + j + t;
    assert s[0] == c && s[1] == j[0];
    assert s[1..] == j + t;
    assert LeadingIn(s[1..], chars) == 0;
    assert LeadingIn(s, chars) == 1;
    TrailingInFramed(j, t, chars);
    assert s == [c] + (j + t);
    assert TrailingIn(s, chars) == |t| by {
      TrailingInFramed([c] + j, t, chars);
    }
    assert s[1..|s| - |t|] == j;
  }

  lemma {:induction false} TrailingInFramed(j: string, t: string, chars: set<char>)
    requires |j| > 0 && j[|j| - 1] !in chars
    requires forall i | 0 <= i < |t| :: t[i] in chars
    ensures TrailingIn(j + t, chars) == |t|
    decreases |t|
  {
    if |t| == 0 {
      assert j + t == j;
    } else {
      var u := j + t;
      assert u[..|u| - 1] == j + t[..|t| - 1];
      TrailingInFramed(j, t[..|t| - 1], chars);
    }
  }

  predicate StartsWith(s: string, prefix: string) {
    |prefix| <= |s| && s[..|prefix|] == prefix
  }

  predicate EndsWith(s: string, suffix: string) {
    |suffix| <= |s| && s[|s| - |suffix|..] == suffix
  }

  /** `w` occurs in `s` starting at index `i`. */
  predicate OccursAt(s: string, w: string, i: int) {
    0 <= i && i + |w| <= |s| && s[i..i + |w|] == w
  }

  /** `w in s` for strings: substring search, which is what `re.search` does for a pattern
      without metacharacters. */
  predicate Contains(s: string, w: string) {
    exists i | 0 <= i <= |s| :: OccursAt(s, w, i)
  }

  /** `s.split(sep)` for a one-character separator. */
  function SplitOn(s: string, sep: char): (r: seq<string>)
    ensures |r| >= 1
    ensures forall k :: 0 <= k < |r| ==> sep !in r[k]
    decreases |s|
  {
    if |s| == 0 then [""]
    else
      var rest := SplitOn(s[1..], sep);
      if s[0] == sep then [""] + rest else [[s[0]] + rest[0]] + rest[1..]
  }

  /** `sep.join(parts)`. */
  function JoinWith(parts: seq<string>, sep: string): string
    decreases |parts|
  {
    if |parts| == 0 then ""
    else if |parts| == 1 then parts[0]
    else parts[0] + sep + JoinWith(parts[1..], sep)
  }

  /** Joining the pieces of a split with the same separator gives back the string. */
  lemma {:induction false} JoinSplit(s: string, sep: char)
    ensures JoinWith(SplitOn(s, sep), [sep]) == s
    decreases |s|
  {
    if |s| > 0 {
      var rest := SplitOn(s[1..], sep);
      JoinSplit(s[1..], sep);
      if s[0] == sep {
        assert SplitOn(s, sep) == [""] + rest;
        assert JoinWith([""] + rest, [sep]) == "" + [sep] + JoinWith(rest, [sep]);
        assert s == [s[0]] + s[1..];
      } else {
        assert SplitOn(s, sep) == [[s[0]] + rest[0]] + rest[1..];
        if |rest| == 1 {
          assert JoinWith(rest, [sep]) == rest[0];
        } else {
          assert JoinWith(rest, [sep]) == rest[0] + [sep] + JoinWith(rest[1..], [sep]);
          assert ([[s[0]] + rest[0]] + rest[1..])[1..] == rest[1..];
        }
        assert s == [s[0]] + s[1..];
      }
    }
  }

  /** A piece without the separator, followed by the separator, splits off as one piece. */
  lemma {:induction false} SplitAfterPiece(a: string, sep: char, b: string)
    requires sep !in a
    ensures SplitOn(a + [sep] + b, sep) == [a] + SplitOn(b, sep)
    decreases |a|
  {
    if |a| == 0 {
      assert a + [sep] + b == [sep] + b;
      assert ([sep] + b)[1..] == b;
    } else {
      SplitAfterPiece(a[1..], sep, b);
      assert (a + [sep] + b)[1..] == a[1..] + [sep] + b;
      assert [a[0]] + a[1..] == a;
    }
  }

  /** A string without the separator is a single piece. */
  lemma {:induction false} SplitNoSep(a: string, sep: char)
    requires sep !in a
    ensures SplitOn(a, sep) == [a]
    decreases |a|
  {
    if |a| > 0 {
      SplitNoSep(a[1..], sep);
      assert [a[0]] + a[1..] == a;
    }
  }

  /** Splitting a join of separator-free pieces gives the pieces back. */
  lemma {:induction false} SplitJoin(parts: seq<string>, sep: char)
    requires |parts| >= 1
    requires forall k :: 0 <= k < |parts| ==> sep !in parts[k]
    ensures SplitOn(JoinWith(parts, [sep]), sep) == parts
    decreases |parts|
  {
    if |parts| == 1 {
      SplitNoSep(parts[0], sep);
    } else {
      SplitJoin(parts[1..], sep);
      SplitAfterPiece(parts[0], sep, JoinWith(parts[1..], [sep]));
      assert [parts[0]] + parts[1..] == parts;
    }
  }

  /** `s.replace(pattern, repl)`: one left-to-right pass that replaces non-overlapping
      occurrences; with an empty `pattern`, `repl` is inserted around every character. */
  function Replace(s: string, pattern: string, repl: string): string
    decreases |s|
  {
    if |pattern| == 0 then
      (if |s| == 0 then repl else repl + [s[0]] + Replace(s[1..], pattern, repl))
    else if |s| < |pattern| then s
    else if s[..|pattern|] == pattern then repl + Replace(s[|pattern|..], pattern, repl)
    else [s[0]] + Replace(s[1..], pattern, repl)
  }

  /** Replacing one character by another maps the string position by position. */
  lemma {:induction false} ReplaceCharPointwise(s: string, a: char, b: char)
    ensures |Replace(s, [a], [b])| == |s|
    ensures forall i :: 0 <= i < |s| ==>
      Replace(s, [a], [b])[i] == (if s[i] == a then b else s[i])
    decreases |s|
  {
    if |s| > 0 {
      ReplaceCharPointwise(s[1..], a, b);
      var r := Replace(s[1..], [a], [b]);
      if s[..1] == [a] {
        assert Replace(s, [a], [b]) == [b] + r;
        assert s[|[a]|..] == s[1..];
      } else {
        assert Replace(s, [a], [b]) == [s[0]] + r;
      }
    }
  }

  /** Replacing one character by another works piece by piece. */
  lemma ReplaceCharAppend(x: string, y: string, a: char, b: char)
    ensures Replace(x + y, [a], [b]) == Replace(x, [a], [b]) + Replace(y, [a], [b])
  {
    ReplaceCharPointwise(x + y, a, b);
    ReplaceCharPointwise(x, a, b);
    ReplaceCharPointwise(y, a, b);
    var l := Replace(x + y, [a], [b]);
    var rr := Replace(x, [a], [b]) + Replace(y, [a], [b]);
    assert forall i | 0 <= i < |l| :: l[i] == rr[i] by {
      forall i | 0 <= i < |l| ensures l[i] == rr[i] {
        if i < |x| {
          assert (x + y)[i] == x[i];
        } else {
          assert (x + y)[i] == y[i - |x|];
        }
      }
    }
  }

  /** A string without the character is left alone. */
  lemma ReplaceCharAbsent(x: string, a: char, b: char)
    requires a !in x
    ensures Replace(x, [a], [b]) == x
  {
    ReplaceCharPointwise(x, a, b);
  }

  /** Deleting a non-empty pattern never lengthens the string. */
  lemma {:induction false} RemoveShortens(s: string, pattern: string)
    requires |pattern| > 0
    ensures |Replace(s, pattern, "")| <= |s|
    decreases |s|
  {
    if |s| >= |pattern| {
      if s[..|pattern|] == pattern {
        RemoveShortens(s[|pattern|..], pattern);
      } else {
        RemoveShortens(s[1..], pattern);
      }
    }
  }

  /** The decimal digit for `d`. */
  function Digit(d: nat): char
    requires d < 10
  {
    "0123456789"[d]
  }

  predicate IsDigit(c: char) {
    '0' <= c <= '9'
  }

  function DigitValue(c: char): nat
    requires IsDigit(c)
  {
    (c as int - '0' as int) as nat
  }

  /** `str(n)` for a natural number. */
  function NatToString(n: nat): (r: string)
    ensures |r| >= 1
    ensures forall i :: 0 <= i < |r| ==> IsDigit(r[i])
    decreases n
  {
    if n < 10 then [Digit(n)] else NatToString(n / 10) + [Digit(n % 10)]
  }

  /** The number a string of decimal digits denotes. */
  function DigitsValue(s: string): nat
    requires forall i :: 0 <= i < |s| ==> IsDigit(s[i])
    decreases |s|
  {
    if |s| == 0 then 0 else DigitsValue(s[..|s| - 1]) * 10 + DigitValue(s[|s| - 1])
  }

  /** Reading back the decimal form of `n` gives `n`. */
  lemma {:induction false} NatToStringRoundTrip(n: nat)
    ensures DigitsValue(NatToString(n)) == n
    decreases n
  {
    if n >= 10 {
      NatToStringRoundTrip(n / 10);
      var r := NatToString(n);
      assert r[..|r| - 1] == NatToString(n / 10);
    }
  }

  /** Different numbers have different decimal forms. */
  lemma NatToStringInjective(m: nat, n: nat)
    requires NatToString(m) == NatToString(n)
    ensures m == n
  {
    NatToStringRoundTrip(m);
    NatToStringRoundTrip(n);
  }

  /** `str(i)` for an integer: a minus sign before the digits of a negative number. */
  function IntToString(i: int): (r: string)
    ensures |r| >= 1
  {
    if i < 0 then "-" + NatToString(-i) else NatToString(i)
  }
}
