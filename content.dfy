/** `strategies/content.py`, `clean_navigation_content`: the markdown of a documentation
    page without the navigation before its first heading and the footer after its content. */
module Content {
  import opened Text

  const Newline: set<char> := {'\n'}

  /** A line that can open the content: past its leading whitespace, it starts with "#". */
  predicate IsHeading(line: string) {
    LeadingSpace(line) < |line| && line[LeadingSpace(line)] == '#'
  }

  /** That is the source's test: the stripped line starts with "#". */
  lemma HeadingIsStrippedHash(line: string)
    ensures IsHeading(line) <==> StartsWith(Strip(line), "#")
  {
    if LeadingSpace(line) < |line| {
      StripFirst(line);
    }
  }

  /** The footer regular expressions, by shape. Searched in a single line, which never holds
      a newline, so `.` (any character but a newline) stands for any character. */
  datatype Pattern =
    | Literal(text: string)                              // no metacharacters: substring search
    | Bracketed(tag: string)                             // `\[Tag\s+.*\]`
    | InOrder(first: string, second: string, third: string)  // `First.*Second.*Third`

  /** `re.search(pattern, line)` succeeds. */
  predicate Search(p: Pattern, line: string) {
    match p
    case Literal(t) => Contains(line, t)
    case Bracketed(tag) =>
      exists i | 0 <= i <= |line| :: OccursAt(line, tag, i) && BracketCloses(line, i + |tag|)
    case InOrder(a, b, c) =>
      exists i | 0 <= i <= |line| :: OccursAt(line, a, i) && FollowedInOrder(line, b, c, i + |a|)
  }

  /** `\s+.*\]` matches at `k`: a whitespace character at `k` and a "]" somewhere after it. */
  predicate BracketCloses(line: string, k: int) {
    0 <= k < |line| && IsSpace(line[k]) && exists j | k < j < |line| :: line[j] == ']'
  }

  /** `b`, then later `c`, both at or after `k`. */
  predicate FollowedInOrder(line: string, b: string, c: string, k: int) {
    exists j | k <= j <= |line| :: OccursAt(line, b, j)
      && exists m | j + |b| <= m <= |line| :: OccursAt(line, c, m)
  }

  /** The footer patterns, in the order the source tries them. */
  const FooterPatterns: seq<Pattern> := [
    Literal("Was this page helpful?"),
    Literal("ON THIS PAGE"),
    Bracketed("[Next"),
    Bracketed("[Previous"),
    Literal("Community Forum"),
    Literal("Discord Server"),
    Literal("GitHub Samples"),
    InOrder("FigJam", "Enterprise", "Learn")
  ]

  /** Some footer pattern occurs in the (unstripped) line. */
  predicate IsFooter(line: string) {
    exists q | 0 <= q < |FooterPatterns| :: Search(FooterPatterns[q], line)
  }

  /** The footer rule spelled out: a line is cut at iff it holds one of these. */
  lemma FooterLines(line: string)
    ensures IsFooter(line) <==>
      Contains(line, "Was this page helpful?") || Contains(line, "ON THIS PAGE")
      || Search(Bracketed("[Next"), line) || Search(Bracketed("[Previous"), line)
      || Contains(line, "Community Forum") || Contains(line, "Discord Server")
      || Contains(line, "GitHub Samples") || Search(InOrder("FigJam", "Enterprise", "Learn"), line)
  {
    if Contains(line, "Was this page helpful?") { assert Search(FooterPatterns[0], line); }
    if Contains(line, "ON THIS PAGE") { assert Search(FooterPatterns[1], line); }
    if Search(Bracketed("[Next"), line) { assert Search(FooterPatterns[2], line); }
    if Search(Bracketed("[Previous"), line) { assert Search(FooterPatterns[3], line); }
    if Contains(line, "Community Forum") { assert Search(FooterPatterns[4], line); }
    if Contains(line, "Discord Server") { assert Search(FooterPatterns[5], line); }
    if Contains(line, "GitHub Samples") { assert Search(FooterPatterns[6], line); }
    if Search(InOrder("FigJam", "Enterprise", "Learn"), line) { assert Search(FooterPatterns[7], line); }
  }

  // ---------------------------------------------------------------- where the content starts

  /** The first heading at index `i` or later, or 0 when there is none. */
  function FirstHeadingFrom(lines: seq<string>, i: nat): (k: nat)
    requires i >= 1
    ensures k == 0 || i <= k < |lines|
    decreases |lines| - i
  {
    if i >= |lines| then 0
    else if IsHeading(lines[i]) then i
    else FirstHeadingFrom(lines, i + 1)
  }

  lemma {:induction false} FirstHeadingFromIsFirst(lines: seq<string>, i: nat)
    requires i >= 1
    ensures FirstHeadingFrom(lines, i) == 0 ==> forall j | i <= j < |lines| :: !IsHeading(lines[j])
    ensures FirstHeadingFrom(lines, i) != 0 ==> IsHeading(lines[FirstHeadingFrom(lines, i)])
    ensures forall j | i <= j < FirstHeadingFrom(lines, i) :: !IsHeading(lines[j])
    decreases |lines| - i
  {
    if i < |lines| && !IsHeading(lines[i]) {
      FirstHeadingFromIsFirst(lines, i + 1);
    }
  }

  /** The start line: the first heading after line 0, or line 0 when there is none. */
  function ContentStart(lines: seq<string>): (s: nat)
    ensures |lines| > 0 ==> s < |lines|
  {
    FirstHeadingFrom(lines, 1)
  }

  /** The start line is the smallest i >= 1 whose stripped line starts with "#", or 0 when
      there is none: a heading on line 0 is passed over, so a later heading wins over it. */
  lemma ContentStartIsFirstHeading(lines: seq<string>)
    ensures var s := ContentStart(lines);
      && (s == 0 ==> forall i | 1 <= i < |lines| :: !IsHeading(lines[i]))
      && (s != 0 ==> s < |lines| && IsHeading(lines[s]) && forall i | 1 <= i < s :: !IsHeading(lines[i]))
  {
    FirstHeadingFromIsFirst(lines, 1);
  }

  /** The forward scan of `clean_navigation_content`. Blank lines, list items and links are
      skipped explicitly; any other line that is not a heading after line 0 is passed over too. */
  method FindContentStart(lines: seq<string>) returns (start: nat)
    ensures start == ContentStart(lines)
  {
    start := 0;
    var i := 0;
    while i < |lines|
      invariant 0 <= i <= |lines|
      invariant start == 0
      invariant forall k | 1 <= k < i :: !IsHeading(lines[k])
    {
      var stripped := Strip(lines[i]);
      if stripped == "" || StartsWith(stripped, "*") || StartsWith(stripped, "[") {
        SkippedNotHeading(stripped);
        HeadingIsStrippedHash(lines[i]);
        i := i + 1;
        continue;
      }
      HeadingIsStrippedHash(lines[i]);
      if StartsWith(stripped, "#") && i > 0 {
        start := i;
        break;
      }
      i := i + 1;
    }
    ContentStartIsFirstHeading(lines);
  }

  /** Blank lines, list items and links are never headings. */
  lemma SkippedNotHeading(stripped: string)
    requires stripped == "" || StartsWith(stripped, "*") || StartsWith(stripped, "[")
    ensures !StartsWith(stripped, "#")
  {
    if stripped != "" {
      assert stripped[0] != '#';
    }
  }

  // ---------------------------------------------------------------- where the content ends

  /** The last footer line in `(start, i]`, or `|lines|` when there is none. */
  function LastFooterDownFrom(lines: seq<string>, start: nat, i: nat): (e: nat)
    requires start <= i < |lines|
    ensures e == |lines| || start < e <= i
    decreases i
  {
    if i == start then |lines|
    else if IsFooter(lines[i]) then i
    else LastFooterDownFrom(lines, start, i - 1)
  }

  lemma {:induction false} LastFooterDownFromIsLast(lines: seq<string>, start: nat, i: nat)
    requires start <= i < |lines|
    ensures var e := LastFooterDownFrom(lines, start, i);
      && (e == |lines| ==> forall j | start < j <= i :: !IsFooter(lines[j]))
      && (e != |lines| ==> IsFooter(lines[e]) && forall j | e < j <= i :: !IsFooter(lines[j]))
    decreases i
  {
    if i > start && !IsFooter(lines[i]) {
      LastFooterDownFromIsLast(lines, start, i - 1);
    }
  }

  /** The end line: the last footer line below the start line, or `|lines|` when there is none. */
  function ContentEnd(lines: seq<string>, start: nat): (e: nat)
    requires start < |lines|
    ensures start < e <= |lines|
  {
    LastFooterDownFrom(lines, start, |lines| - 1)
  }

  /** The end line is the largest i with start < i < |lines| whose (unstripped) line is a
      footer line, or |lines| when there is none. Footer lines above it are kept, and the
      start line is never cut. */
  lemma ContentEndIsLastFooter(lines: seq<string>, start: nat)
    requires start < |lines|
    ensures var e := ContentEnd(lines, start);
      && (e < |lines| ==> IsFooter(lines[e]) && forall j | e < j < |lines| :: !IsFooter(lines[j]))
      && (e == |lines| ==> forall j | start < j < |lines| :: !IsFooter(lines[j]))
  {
    LastFooterDownFromIsLast(lines, start, |lines| - 1);
  }

  /** The backward scan: every pattern is tried on a line before moving up one line. */
  method FindContentEnd(lines: seq<string>, start: nat) returns (end: nat)
    requires start < |lines|
    ensures end == ContentEnd(lines, start)
  {
    end := |lines|;
    var i := |lines| - 1;
    while i > start
      invariant start <= i < |lines|
      invariant end == |lines|
      invariant forall j | i < j < |lines| :: !IsFooter(lines[j])
    {
      var q := 0;
      while q < |FooterPatterns|
        invariant 0 <= q <= |FooterPatterns|
        invariant end == |lines|
        invariant forall r | 0 <= r < q :: !Search(FooterPatterns[r], lines[i])
      {
        if Search(FooterPatterns[q], lines[i]) {
          end := i;
          break;
        }
        q := q + 1;
      }
      if end < |lines| {
        break;
      }
      i := i - 1;
    }
    ContentEndIsLastFooter(lines, start);
  }

  // ---------------------------------------------------------------- collapsing blank lines

  /** No three newlines in a row. */
  predicate NoTriple(s: string) {
    forall i | 0 <= i < |s| - 2 :: !(s[i] == '\n' && s[i + 1] == '\n' && s[i + 2] == '\n')
  }

  lemma NoTripleContains(s: string)
    ensures NoTriple(s) <==> !Contains(s, "\n\n\n")
  {
    if !NoTriple(s) {
      var i :| 0 <= i < |s| - 2 && s[i] == '\n' && s[i + 1] == '\n' && s[i + 2] == '\n';
      assert OccursAt(s, "\n\n\n", i);
    }
    if Contains(s, "\n\n\n") {
      var i :| 0 <= i <= |s| && OccursAt(s, "\n\n\n", i);
      assert s[i..i + 3][0] == s[i] && s[i..i + 3][1] == s[i + 1] && s[i..i + 3][2] == s[i + 2];
    }
  }

  /** `re.sub(r"\n{3,}", "\n\n", s)`: every run of three or more newlines becomes two. */
  function Collapse(s: string): string
    decreases |s|
  {
    if |s| == 0 then ""
    else if LeadingIn(s, Newline) >= 3 then "\n\n" + Collapse(s[LeadingIn(s, Newline)..])
    else [s[0]] + Collapse(s[1..])
  }

  /** The newlines a collapsed string starts with: as many as in `s`, but at most two. */
  lemma {:induction false} CollapseLeading(s: string)
    ensures LeadingIn(Collapse(s), Newline) == if LeadingIn(s, Newline) >= 2 then 2 else LeadingIn(s, Newline)
    decreases |s|
  {
    var n := LeadingIn(s, Newline);
    if |s| == 0 {
    } else if n >= 3 {
      var rest := s[n..];
      CollapseLeading(rest);
      assert LeadingIn(rest, Newline) == 0;
      LeadingInAppend("\n\n", Collapse(rest), Newline);
    } else {
      CollapseLeading(s[1..]);
      LeadingInAppend([s[0]], Collapse(s[1..]), Newline);
      LeadingInAppend([s[0]], s[1..], Newline);
      assert [s[0]] + s[1..] == s;
    }
  }

  /** Collapsing leaves no three newlines in a row. */
  lemma {:induction false} CollapseNoTriple(s: string)
    ensures NoTriple(Collapse(s))
    decreases |s|
  {
    var n := LeadingIn(s, Newline);
    if |s| == 0 {
    } else if n >= 3 {
      CollapseNoTriple(s[n..]);
      CollapseLeading(s[n..]);
      NoTriplePair(Collapse(s[n..]));
    } else {
      CollapseNoTriple(s[1..]);
      CollapseLeading(s[1..]);
      if s[0] == '\n' {
        LeadingInAppend([s[0]], s[1..], Newline);
        assert [s[0]] + s[1..] == s;
      }
      NoTripleCons(s[0], Collapse(s[1..]));
    }
  }

  /** A blank-line pair before text that starts with no newline makes no run of three. */
  lemma NoTriplePair(c: string)
    requires NoTriple(c) && LeadingIn(c, Newline) == 0
    ensures NoTriple("\n\n" + c)
  {
    var r := "\n\n" + c;
    forall i | 0 <= i < |r| - 2
      ensures !(r[i] == '\n' && r[i + 1] == '\n' && r[i + 2] == '\n')
    {
      if i >= 2 {
        assert r[i] == c[i - 2] && r[i + 1] == c[i - 1] && r[i + 2] == c[i];
      } else {
        assert r[2] == c[0];
      }
    }
  }

  /** One character before a text with no run of three, and with at most one leading
      newline when that character is one, makes no run of three. */
  lemma NoTripleCons(x: char, c: string)
    requires NoTriple(c) && (x == '\n' ==> LeadingIn(c, Newline) <= 1)
    ensures NoTriple([x] + c)
  {
    var r := [x] + c;
    forall i | 0 <= i < |r| - 2
      ensures !(r[i] == '\n' && r[i + 1] == '\n' && r[i + 2] == '\n')
    {
      if i >= 1 {
        assert r[i] == c[i - 1] && r[i + 1] == c[i] && r[i + 2] == c[i + 1];
      } else if x == '\n' {
        assert r[1] == c[0] && r[2] == c[1];
      }
    }
  }

  /** Collapsing keeps the first and the last character. */
  lemma {:induction false} CollapseEnds(s: string)
    requires |s| > 0
    ensures |Collapse(s)| > 0 && Collapse(s)[0] == s[0]
    ensures Collapse(s)[|Collapse(s)| - 1] == s[|s| - 1]
    decreases |s|
  {
    var n := LeadingIn(s, Newline);
    if n >= 3 {
      if n < |s| {
        CollapseEnds(s[n..]);
      }
    } else if |s| > 1 {
      CollapseEnds(s[1..]);
    }
  }

  /** A string with no three newlines in a row is left as it is. */
  lemma {:induction false} CollapseFixes(s: string)
    requires NoTriple(s)
    ensures Collapse(s) == s
    decreases |s|
  {
    if |s| > 0 {
      assert NoTriple(s[1..]) by {
        forall i | 0 <= i < |s[1..]| - 2
          ensures !(s[1..][i] == '\n' && s[1..][i + 1] == '\n' && s[1..][i + 2] == '\n')
        {
          assert s[1..][i] == s[i + 1] && s[1..][i + 1] == s[i + 2] && s[1..][i + 2] == s[i + 3];
        }
      }
      CollapseFixes(s[1..]);
      assert Collapse(s) == [s[0]] + Collapse(s[1..]);
      assert [s[0]] + s[1..] == s;
    }
  }

  /** So collapsing twice is collapsing once. */
  lemma CollapseIdempotent(s: string)
    ensures Collapse(Collapse(s)) == Collapse(s)
  {
    CollapseNoTriple(s);
    CollapseFixes(Collapse(s));
  }

  /** `s` without its newlines. */
  function WithoutNewlines(s: string): string
    decreases |s|
  {
    if |s| == 0 then "" else (if s[0] == '\n' then "" else [s[0]]) + WithoutNewlines(s[1..])
  }

  lemma {:induction false} WithoutNewlinesAppend(a: string, b: string)
    ensures WithoutNewlines(a + b) == WithoutNewlines(a) + WithoutNewlines(b)
    decreases |a|
  {
    if |a| == 0 {
      assert a + b == b;
    } else {
      WithoutNewlinesAppend(a[1..], b);
      var h := if a[0] == '\n' then "" else [a[0]];
      assert (a + b)[0] == a[0] && (a + b)[1..] == a[1..] + b;
      assert WithoutNewlines(a + b) == h + (WithoutNewlines(a[1..]) + WithoutNewlines(b));
    }
  }

  lemma {:induction false} WithoutNewlinesRun(s: string, n: nat)
    requires n <= |s| && forall i | 0 <= i < n :: s[i] == '\n'
    ensures WithoutNewlines(s) == WithoutNewlines(s[n..])
    decreases n
  {
    if n > 0 {
      WithoutNewlinesRun(s[1..], n - 1);
      assert s[1..][n - 1..] == s[n..];
    }
  }

  /** Collapsing removes newlines and nothing else. */
  lemma {:induction false} CollapseKeepsText(s: string)
    ensures WithoutNewlines(Collapse(s)) == WithoutNewlines(s)
    decreases |s|
  {
    var n := LeadingIn(s, Newline);
    if |s| == 0 {
    } else if n >= 3 {
      CollapseKeepsText(s[n..]);
      WithoutNewlinesAppend("\n\n", Collapse(s[n..]));
      WithoutNewlinesRun(s, n);
    } else {
      CollapseKeepsText(s[1..]);
      WithoutNewlinesAppend([s[0]], Collapse(s[1..]));
    }
  }

  // ---------------------------------------------------------------- the whole transformation

  lemma CollapseTrimmed(t: string)
    requires Trimmed(t)
    ensures Trimmed(Collapse(t)) && NoTriple(Collapse(t))
  {
    CollapseNoTriple(t);
    if |t| > 0 {
      CollapseEnds(t);
    }
  }

  /** The lines kept: from the start line up to, not including, the end line. */
  function Kept(lines: seq<string>): (kept: seq<string>)
    requires |lines| >= 1
    ensures |kept| >= 1 && kept[0] == lines[ContentStart(lines)]
  {
    var start := ContentStart(lines);
    lines[start..ContentEnd(lines, start)]
  }

  /** `clean_navigation_content`: the kept lines joined, stripped and collapsed. */
  function Clean(markdown: string): string {
    Collapse(Strip(JoinWith(Kept(SplitOn(markdown, '\n')), "\n")))
  }

  /** Cleaning never fails, and its result has no whitespace at either end and no three
      newlines in a row. */
  lemma CleanShape(markdown: string)
    ensures Trimmed(Clean(markdown)) && !Contains(Clean(markdown), "\n\n\n")
  {
    var t := Strip(JoinWith(Kept(SplitOn(markdown, '\n')), "\n"));
    CollapseTrimmed(t);
    NoTripleContains(Collapse(t));
  }

  /** The imperative original: two scans, then the join, strip and collapse. */
  method CleanNavigationContent(markdown: string) returns (result: string)
    ensures result == Clean(markdown)
  {
    var lines := SplitOn(markdown, '\n');
    var start := FindContentStart(lines);
    var end := FindContentEnd(lines, start);
    result := Strip(JoinWith(lines[start..end], "\n"));
    result := Collapse(result);
  }

  /** No line after line 0 is a heading or a footer line. */
  predicate NoMarkers(lines: seq<string>) {
    forall i | 1 <= i < |lines| :: !IsHeading(lines[i]) && !IsFooter(lines[i])
  }

  /** Without a heading after line 0 and without a footer line after it, every line is kept. */
  lemma KeptAll(lines: seq<string>)
    requires |lines| >= 1 && NoMarkers(lines)
    ensures Kept(lines) == lines
  {
    ContentStartIsFirstHeading(lines);
    assert ContentStart(lines) == 0;
    ContentEndIsLastFooter(lines, 0);
    assert lines[0..|lines|] == lines;
  }

  /** So cleaning such a text is stripping and collapsing it whole. */
  lemma CleanWithoutMarkers(markdown: string)
    requires NoMarkers(SplitOn(markdown, '\n'))
    ensures Clean(markdown) == Collapse(Strip(markdown))
  {
    var lines := SplitOn(markdown, '\n');
    KeptAll(lines);
    JoinSplit(markdown, '\n');
    assert JoinWith(Kept(lines), "\n") == markdown;
  }

  /** Empty input gives empty output. */
  lemma CleanEmpty()
    ensures Clean("") == ""
  {
    assert SplitOn("", '\n') == [""];
    CleanWithoutMarkers("");
  }

  /** When a heading after line 0 was found, the result starts with its "#". */
  lemma CleanStartsAtHeading(markdown: string)
    requires ContentStart(SplitOn(markdown, '\n')) > 0
    ensures |Clean(markdown)| > 0 && Clean(markdown)[0] == '#'
  {
    ContentStartIsFirstHeading(SplitOn(markdown, '\n'));
    var kept := Kept(SplitOn(markdown, '\n'));
    HeadingJoined(kept);
    CollapseEnds(Strip(JoinWith(kept, "\n")));
  }

  /** Lines joined after a heading line, stripped, start with the heading's "#". */
  lemma HeadingJoined(kept: seq<string>)
    requires |kept| >= 1 && IsHeading(kept[0])
    ensures var t := Strip(JoinWith(kept, "\n")); |t| > 0 && t[0] == '#'
  {
    var first := kept[0];
    var k := LeadingSpace(first);
    assert Strip(first)[0] == '#';
    assert k < |first|;
    StripFirst(first);
    var j := JoinWith(kept, "\n");
    JoinStartsWith(kept, "\n");
    assert j == first + j[|first|..];
    LeadingSpaceAppend(first, j[|first|..]);
    StripFirst(j);
  }

  /** A join starts with its first piece. */
  lemma JoinStartsWith(parts: seq<string>, sep: string)
    requires |parts| >= 1
    ensures |JoinWith(parts, sep)| >= |parts[0]|
    ensures JoinWith(parts, sep)[..|parts[0]|] == parts[0]
  {
  }
}
