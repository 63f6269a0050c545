/** A simplified `urllib.parse.urlparse`: the split of a URI reference into scheme,
    authority, path, query and fragment laid down in section 3 of RFC 3986. */
module Url {
  import opened Wrappers

  /** The five components; a component the reference does not have is `None`
      (Python reports it as the empty string). */
  datatype Parts = Parts(
    scheme: Option<string>,
    authority: Option<string>,
    path: string,
    query: Option<string>,
    fragment: Option<string>)

  predicate IsAlpha(c: char) {
    ('a' <= c <= 'z') || ('A' <= c <= 'Z')
  }

  /** Section 3.1 of RFC 3986: ALPHA *( ALPHA / DIGIT / "+" / "-" / "." ). */
  predicate IsSchemeName(s: string) {
    |s| > 0 && IsAlpha(s[0])
    && forall i :: 0 <= i < |s| ==> IsAlpha(s[i]) || ('0' <= s[i] <= '9') || s[i] in {'+', '-', '.'}
  }

  /** The first index of `s` holding one of `stops`, or `|s|` when there is none. */
  function FirstIndex(s: string, stops: set<char>): (i: nat)
    ensures i <= |s|
    ensures forall k :: 0 <= k < i ==> s[k] !in stops
    ensures i < |s| ==> s[i] in stops
    decreases |s|
  {
    if |s| == 0 || s[0] in stops then 0 else 1 + FirstIndex(s[1..], stops)
  }

  /** Where the search runs on into an appended string. */
  lemma {:induction false} FirstIndexAppend(a: string, b: string, stops: set<char>)
    ensures FirstIndex(a + b, stops) ==
      if FirstIndex(a, stops) < |a| then FirstIndex(a, stops) else |a| + FirstIndex(b, stops)
    decreases |a|
  {
    if |a| > 0 && a[0] !in stops {
      FirstIndexAppend(a[1..], b, stops);
      assert (a + b)[1..] == a[1..] + b;
    } else if |a| == 0 {
      assert a + b == b;
    }
  }

  /** `s` up to (not including) the first character in `stops`. */
  function Before(s: string, stops: set<char>): (r: string)
    ensures |r| <= |s| && r == s[..|r|]
    ensures forall c :: c in r ==> c !in stops
    ensures |r| < |s| ==> s[|r|] in stops
  {
    s[..FirstIndex(s, stops)]
  }

  /** What follows the first occurrence of `c` in `s`, if it occurs. */
  function After(s: string, c: char): (r: Option<string>)
  {
    var i := Before(s, {c});
    if |i| < |s| then Some(s[|i| + 1..]) else None
  }

  /** `s` is the text before the first `c`, then `c` and what follows it when it occurs. */
  lemma BeforeAfter(s: string, c: char)
    ensures s == Before(s, {c}) + (if After(s, c).Some? then [c] + After(s, c).value else "")
  {
    var b := Before(s, {c});
    if |b| < |s| {
      assert s == b + [c] + s[|b| + 1..];
    }
  }

  /** The scheme, when the reference starts with one (RFC 3986, section 3.1). */
  function Scheme(u: string): Option<string> {
    var c := Before(u, {':'});
    if |c| < |u| && IsSchemeName(c) then Some(c) else None
  }

  /** What follows `scheme ":"`, or the whole reference. */
  function AfterScheme(u: string): (h: string)
    ensures u == (if Scheme(u).Some? then Scheme(u).value + ":" else "") + h
  {
    if Scheme(u).Some? then u[|Scheme(u).value| + 1..] else u
  }

  predicate StartsWithDoubleSlash(s: string) {
    |s| >= 2 && s[..2] == "//"
  }

  /** RFC 3986, section 3.2: an authority is introduced by "//" and ended by the first "/", "?" or "#". */
  function Authority(h: string): (a: Option<string>)
    ensures a.Some? ==> StartsWithDoubleSlash(h) && 2 + |a.value| <= |h|
  {
    if StartsWithDoubleSlash(h) then Some(Before(h[2..], {'/', '?', '#'})) else None
  }

  /** The hierarchical part after the authority. */
  function AfterAuthority(h: string): (rest: string)
    ensures h == (if Authority(h).Some? then "//" + Authority(h).value else "") + rest
    ensures Authority(h).None? ==> rest == h
  {
    if Authority(h).Some? then h[2 + |Authority(h).value|..] else h
  }

  /** Section 3 of RFC 3986: the path ends at the first "?" or "#" (3.3), the query at
      the first "#" (3.4), and the fragment runs to the end (3.5). */
  function Split(u: string): (p: Parts)
    ensures p.authority.Some? ==> forall c :: c in p.authority.value ==> c !in {'/', '?', '#'}
    ensures '?' !in p.path && '#' !in p.path
    ensures p.query.Some? ==> '#' !in p.query.value
  {
    var h := AfterScheme(u);
    var rest := AfterAuthority(h);
    var beforeFragment := Before(rest, {'#'});
    Parts(Scheme(u), Authority(h), Before(beforeFragment, {'?'}), After(beforeFragment, '?'), After(rest, '#'))
  }

  /** An optional component with the delimiter that introduces it. */
  function Marked(mark: string, o: Option<string>): string {
    if o.Some? then mark + o.value else ""
  }

  /** Section 5.3 of RFC 3986: putting the components back together. */
  function Recompose(p: Parts): string {
    (if p.scheme.Some? then p.scheme.value + ":" else "")
    + (Marked("//", p.authority) + ((p.path + Marked("?", p.query)) + Marked("#", p.fragment)))
  }

  /** The split loses nothing: recomposing its components gives the reference back. */
  lemma RecomposeSplit(u: string)
    ensures Recompose(Split(u)) == u
  {
    var p := Split(u);
    var h := AfterScheme(u);
    var rest := AfterAuthority(h);
    var beforeFragment := Before(rest, {'#'});
    var schemePart := if p.scheme.Some? then p.scheme.value + ":" else "";
    assert u == schemePart + h;
    assert h == Marked("//", p.authority) + rest;
    RestSplit(rest);
  }

  /** The same for what follows the authority: path, query and fragment. */
  lemma RestSplit(rest: string)
    ensures var beforeFragment := Before(rest, {'#'});
      rest == (Before(beforeFragment, {'?'}) + Marked("?", After(beforeFragment, '?')))
        + Marked("#", After(rest, '#'))
  {
    var beforeFragment := Before(rest, {'#'});
    BeforeAfter(rest, '#');
    BeforeAfter(beforeFragment, '?');
  }

  /** A stop at the head of an appended string ends the search where `a` ends it. */
  lemma BeforeAppendStop(a: string, b: string, stops: set<char>)
    requires |b| > 0 && b[0] in stops
    ensures Before(a + b, stops) == Before(a, stops)
  {
    FirstIndexAppend(a, b, stops);
    assert (a + b)[..|a|] == a;
    assert (a + b)[..FirstIndex(a, stops)] == a[..FirstIndex(a, stops)];
  }

  /** A stop-free `a` is passed over whole. */
  lemma BeforeAppendFree(a: string, b: string, stops: set<char>)
    requires forall c :: c in a ==> c !in stops
    ensures Before(a + b, stops) == a + Before(b, stops)
  {
    FirstIndexAppend(a, b, stops);
    assert FirstIndex(a, stops) == |a|;
    assert (a + b)[..|a| + FirstIndex(b, stops)] == a + b[..FirstIndex(b, stops)];
  }

  /** A query or fragment appended to a reference that has neither leaves its
      authority and its path alone. */
  lemma PathIgnoresSuffix(u: string, s: string)
    requires '?' !in u && '#' !in u
    requires |s| > 0 && (s[0] == '?' || s[0] == '#')
    ensures Split(u + s).path == Split(u).path
    ensures Split(u + s).authority == Split(u).authority
  {
    SchemeIgnoresSuffix(u, s);
    var h := AfterScheme(u);
    assert AfterScheme(u + s) == h + s;
    AuthorityIgnoresSuffix(h, s);
    var rest := AfterAuthority(h);
    assert AfterAuthority(h + s) == rest + s;
    RestPathIgnoresSuffix(rest, s);
  }

  /** The path of the part after the authority, when it has no query or fragment. */
  lemma RestPathIgnoresSuffix(rest: string, s: string)
    requires '?' !in rest && '#' !in rest
    requires |s| > 0 && (s[0] == '?' || s[0] == '#')
    ensures Before(Before(rest + s, {'#'}), {'?'}) == rest
    ensures Before(Before(rest, {'#'}), {'?'}) == rest
  {
    BeforeAppendFree(rest, [], {'#'});
    assert rest + [] == rest;
    BeforeAppendFree(rest, [], {'?'});
    if s[0] == '#' {
      BeforeAppendStop(rest, s, {'#'});
    } else {
      BeforeAppendFree(rest, s, {'#'});
      BeforeAppendStop(rest, Before(s, {'#'}), {'?'});
    }
  }

  lemma SchemeIgnoresSuffix(u: string, s: string)
    requires '?' !in u && '#' !in u
    requires |s| > 0 && (s[0] == '?' || s[0] == '#')
    ensures Scheme(u + s) == Scheme(u)
    ensures AfterScheme(u + s) == AfterScheme(u) + s
  {
    if ':' in u {
      SchemeBeforeColon(u, s);
    } else {
      NoSchemeWithoutColon(u, s);
    }
  }

  lemma SchemeBeforeColon(u: string, s: string)
    requires ':' in u
    ensures Before(u + s, {':'}) == Before(u, {':'}) && |Before(u, {':'})| < |u|
  {
    var i :| 0 <= i < |u| && u[i] == ':';
    assert FirstIndex(u, {':'}) <= i;
    FirstIndexAppend(u, s, {':'});
    assert (u + s)[..FirstIndex(u, {':'})] == u[..FirstIndex(u, {':'})];
  }

  lemma NoSchemeWithoutColon(u: string, s: string)
    requires ':' !in u
    requires |s| > 0 && (s[0] == '?' || s[0] == '#')
    ensures Scheme(u + s).None? && Scheme(u).None?
  {
    BeforeAppendFree(u, s, {':'});
    var c := Before(u + s, {':'});
    assert c[|u|] == s[0];
    assert !IsSchemeName(c);
    BeforeAppendFree(u, [], {':'});
    assert u + [] == u;
  }

  lemma AuthorityIgnoresSuffix(h: string, s: string)
    requires '?' !in h && '#' !in h
    requires |s| > 0 && (s[0] == '?' || s[0] == '#')
    ensures Authority(h + s) == Authority(h)
    ensures AfterAuthority(h + s) == AfterAuthority(h) + s
  {
    if StartsWithDoubleSlash(h) {
      assert (h + s)[..2] == h[..2];
      assert (h + s)[2..] == h[2..] + s;
      BeforeAppendStop(h[2..], s, {'/', '?', '#'});
    } else if |h| >= 2 {
      assert (h + s)[..2] == h[..2];
    } else {
      assert !StartsWithDoubleSlash(h + s) by {
        if |h + s| >= 2 {
          assert (h + s)[|h|] == s[0];
        }
      }
    }
  }

  /** `scheme://host rest`, with `rest` empty or starting a path, query or fragment:
      the scheme and the authority come out as written. */
  lemma SplitComposed(scheme: string, host: string, rest: string)
    requires IsSchemeName(scheme)
    requires forall c :: c in host ==> c !in {'/', '?', '#'}
    requires rest == "" || rest[0] in {'/', '?', '#'}
    ensures var u := scheme + "://" + host + rest;
      Split(u).scheme == Some(scheme) && Split(u).authority == Some(host)
      && AfterAuthority(AfterScheme(u)) == rest
  {
    var h := "//" + (host + rest);
    assert scheme + "://" + host + rest == scheme + (":" + h);
    SchemeOfComposed(scheme, h);
    AuthorityOfComposed(host, rest);
  }

  lemma SchemeOfComposed(scheme: string, h: string)
    requires IsSchemeName(scheme)
    ensures Scheme(scheme + (":" + h)) == Some(scheme)
    ensures AfterScheme(scheme + (":" + h)) == h
  {
    assert ':' !in scheme;
    BeforeAppendStop(scheme, ":" + h, {':'});
    BeforeAppendFree(scheme, [], {':'});
    assert scheme + [] == scheme;
  }

  lemma AuthorityOfComposed(host: string, rest: string)
    requires forall c :: c in host ==> c !in {'/', '?', '#'}
    requires rest == "" || rest[0] in {'/', '?', '#'}
    ensures Authority("//" + (host + rest)) == Some(host)
    ensures AfterAuthority("//" + (host + rest)) == rest
  {
    var h := "//" + (host + rest);
    assert h[..2] == "//";
    assert h[2..] == host + rest;
    BeforeAppendFree(host, rest, {'/', '?', '#'});
    if rest == "" {
      assert Before(rest, {'/', '?', '#'}) == "";
    } else {
      BeforeAppendStop([], rest, {'/', '?', '#'});
      assert [] + rest == rest;
    }
    assert host + [] == host;
  }

  /** With a path and neither query nor fragment, the path is `path` and the other two are absent. */
  lemma SplitComposedPath(scheme: string, host: string, path: string)
    requires IsSchemeName(scheme)
    requires forall c :: c in host ==> c !in {'/', '?', '#'}
    requires path == "" || path[0] == '/'
    requires '?' !in path && '#' !in path
    ensures var p := Split(scheme + "://" + host + path);
      p == Parts(Some(scheme), Some(host), path, None, None)
  {
    SplitComposed(scheme, host, path);
    BeforeAppendFree(path, [], {'#'});
    BeforeAppendFree(path, [], {'?'});
    assert path + [] == path;
  }
}
