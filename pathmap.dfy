/** `utils/path.py`: where the markdown of a crawled URL is written. */
module PathMap {
  import opened Wrappers
  import opened Text
  import Url
  import opened Paths

  const Slash: set<char> := {'/'}

  /** The stem used when the URL path has nothing but slashes. */
  const IndexStem: string := "index"

  /** The file stem for a URL: its path without the slashes at either end, or "index". */
  function Stem(url: string): (stem: string)
    ensures stem != "" && stem[0] != '/' && stem[|stem| - 1] != '/'
  {
    var p := StripChars(Url.Split(url).path, Slash);
    if p == "" then IndexStem else p
  }

  /** `url_to_filepath`: `base_dir / (stem + ".md")`. The result is a child of `baseDir`
      whose last component ends in ".md". */
  function UrlToFilePath(url: string, baseDir: Path): (r: Path)
    ensures Inside(r, baseDir)
    ensures EndsWith(Name(r), ".md")
    ensures Valid(baseDir) ==> Valid(r)
  {
    ChildOfStem(baseDir, Stem(url));
    Join(baseDir, Stem(url) + ".md")
  }

  lemma ChildOfStem(baseDir: Path, stem: string)
    requires stem != "" && stem[0] != '/'
    ensures Inside(Join(baseDir, stem + ".md"), baseDir)
    ensures EndsWith(Name(Join(baseDir, stem + ".md")), ".md")
  {
    StemLastPart(stem);
    JoinChild(baseDir, stem + ".md");
  }

  /** A relative name whose last component ends in ".md" gives a child of `baseDir`. */
  lemma JoinChild(baseDir: Path, rel: string)
    requires !(|rel| > 0 && rel[0] == '/')
    requires |Segments(rel)| >= 1 && EndsWith(Segments(rel)[|Segments(rel)| - 1], ".md")
    ensures Inside(Join(baseDir, rel), baseDir)
    ensures EndsWith(Name(Join(baseDir, rel)), ".md")
  {
    var r := Join(baseDir, rel);
    assert r.parts == baseDir.parts + Segments(rel);
    assert r.parts[..|baseDir.parts|] == baseDir.parts;
  }

  /** The relative name is never absolute, and its last component is kept and ends in ".md". */
  lemma StemLastPart(stem: string)
    requires stem != "" && stem[0] != '/'
    ensures var rel := stem + ".md";
      !(|rel| > 0 && rel[0] == '/')
      && |Segments(rel)| >= 1 && EndsWith(Segments(rel)[|Segments(rel)| - 1], ".md")
  {
    var rel := stem + ".md";
    assert rel[0] == stem[0];
    SplitOnLast(stem, ".md", '/');
    var xs := SplitOn(rel, '/');
    assert ValidPart(xs[|xs| - 1]) by {
      assert |xs[|xs| - 1]| >= 3;
    }
    KeepPartsLast(xs);
  }

  /** The last piece of a split ends with whatever separator-free text the string ends with. */
  lemma {:induction false} SplitOnLast(a: string, b: string, sep: char)
    requires sep !in b
    ensures var xs := SplitOn(a + b, sep); EndsWith(xs[|xs| - 1], b)
    decreases |a|
  {
    if |a| == 0 {
      assert a + b == b;
      SplitNoSep(b, sep);
    } else {
      var s := a + b;
      assert s[1..] == a[1..] + b;
      SplitOnLast(a[1..], b, sep);
      var rest := SplitOn(s[1..], sep);
      var xs := SplitOn(s, sep);
      if s[0] == sep {
        assert xs == [""] + rest;
        assert xs[|xs| - 1] == rest[|rest| - 1];
      } else if |rest| == 1 {
        assert xs == [[s[0]] + rest[0]];
        var last := [s[0]] + rest[0];
        assert last[|last| - |b|..] == rest[0][|rest[0]| - |b|..];
      } else {
        assert xs == [[s[0]] + rest[0]] + rest[1..];
        assert xs[|xs| - 1] == rest[|rest| - 1];
      }
    }
  }

  /** A kept last piece stays last. */
  lemma {:induction false} KeepPartsLast(xs: seq<string>)
    requires |xs| >= 1 && ValidPart(xs[|xs| - 1])
    requires forall i :: 0 <= i < |xs| ==> '/' !in xs[i]
    ensures |KeepParts(xs)| >= 1 && KeepParts(xs)[|KeepParts(xs)| - 1] == xs[|xs| - 1]
    decreases |xs|
  {
    if |xs| > 1 {
      KeepPartsLast(xs[1..]);
    }
  }

  /** A single component is its own list of segments. */
  lemma SegmentsOfPart(x: string)
    requires ValidPart(x)
    ensures Segments(x) == [x]
  {
    SplitNoSep(x, '/');
    KeepValidParts([x]);
  }

  /** A URL whose path is empty or only slashes maps to `base_dir/index.md`. */
  lemma IndexPage(url: string, baseDir: Path)
    requires forall i | 0 <= i < |Url.Split(url).path| :: Url.Split(url).path[i] == '/'
    ensures UrlToFilePath(url, baseDir) == Path(baseDir.absolute, baseDir.parts + ["index.md"])
  {
    StripCharsAll(Url.Split(url).path, Slash);
    IndexSegments();
  }

  lemma IndexSegments()
    ensures Segments(IndexStem + ".md") == ["index.md"]
  {
    var name := "index.md";
    assert IndexStem + ".md" == name;
    assert ValidPart(name);
    SegmentsOfPart(name);
  }

  /** A query or a fragment does not change the file: `…/a?x=1` and `…/a#f` go where `…/a` goes. */
  lemma IgnoresQueryAndFragment(url: string, suffix: string, baseDir: Path)
    requires '?' !in url && '#' !in url
    requires |suffix| > 0 && (suffix[0] == '?' || suffix[0] == '#')
    ensures UrlToFilePath(url + suffix, baseDir) == UrlToFilePath(url, baseDir)
  {
    Url.PathIgnoresSuffix(url, suffix);
    SamePathSameFile(url + suffix, url, baseDir);
  }

  /** The file depends on the URL's path alone. */
  lemma SamePathSameFile(u: string, v: string, baseDir: Path)
    requires Url.Split(u).path == Url.Split(v).path
    ensures UrlToFilePath(u, baseDir) == UrlToFilePath(v, baseDir)
  {
    assert Stem(u) == Stem(v);
  }

  /** Slashes inside the path become directories: a path `/s1/…/sn` (with or without a
      trailing slash) maps to `base_dir/s1/…/sn.md`. */
  lemma InteriorSlashes(url: string, baseDir: Path, segs: seq<string>, trailing: string)
    requires |segs| >= 1 && forall k | 0 <= k < |segs| :: ValidPart(segs[k])
    requires trailing == "" || trailing == "/"
    requires Url.Split(url).path == "/" + JoinWith(segs, "/") + trailing
    ensures UrlToFilePath(url, baseDir).parts
      == baseDir.parts + (segs[..|segs| - 1] + [segs[|segs| - 1] + ".md"])
  {
    StemOfJoin(url, segs, trailing);
    JoinStem(baseDir, Stem(url), segs);
  }

  lemma JoinStem(baseDir: Path, stem: string, segs: seq<string>)
    requires |segs| >= 1 && forall k | 0 <= k < |segs| :: ValidPart(segs[k])
    requires stem == JoinWith(segs, "/")
    ensures Join(baseDir, stem + ".md").parts
      == baseDir.parts + (segs[..|segs| - 1] + [segs[|segs| - 1] + ".md"])
  {
    JoinFirstLast(segs);
    assert (stem + ".md")[0] == stem[0];
    SegmentsOfJoinMd(segs);
  }

  lemma StemOfJoin(url: string, segs: seq<string>, trailing: string)
    requires |segs| >= 1 && forall k | 0 <= k < |segs| :: ValidPart(segs[k])
    requires trailing == "" || trailing == "/"
    requires Url.Split(url).path == "/" + JoinWith(segs, "/") + trailing
    ensures Stem(url) == JoinWith(segs, "/")
  {
    StripFramedJoin(Url.Split(url).path, segs, trailing);
  }

  lemma StripFramedJoin(path: string, segs: seq<string>, trailing: string)
    requires |segs| >= 1 && forall k | 0 <= k < |segs| :: ValidPart(segs[k])
    requires trailing == "" || trailing == "/"
    requires path == "/" + JoinWith(segs, "/") + trailing
    ensures StripChars(path, Slash) == JoinWith(segs, "/")
  {
    var j := JoinWith(segs, "/");
    JoinFirstLast(segs);
    assert path == ['/'] + j + trailing;
    assert forall i | 0 <= i < |trailing| :: trailing[i] in Slash;
    StripCharsFramed('/', j, trailing, Slash);
  }

  /** The components of `s1/…/sn.md`. */
  lemma SegmentsOfJoinMd(segs: seq<string>)
    requires |segs| >= 1 && forall k | 0 <= k < |segs| :: ValidPart(segs[k])
    ensures Segments(JoinWith(segs, "/") + ".md") == segs[..|segs| - 1] + [segs[|segs| - 1] + ".md"]
  {
    var n := |segs|;
    var parts := segs[..n - 1] + [segs[n - 1] + ".md"];
    JoinWithAppendLast(segs, "/", ".md");
    MdPartsValid(segs);
    SplitJoin(parts, '/');
    KeepValidParts(parts);
  }

  lemma MdPartsValid(segs: seq<string>)
    requires |segs| >= 1 && forall k | 0 <= k < |segs| :: ValidPart(segs[k])
    ensures var parts := segs[..|segs| - 1] + [segs[|segs| - 1] + ".md"];
      forall k | 0 <= k < |parts| :: ValidPart(parts[k]) && '/' !in parts[k]
  {
    var n := |segs|;
    var last := segs[n - 1] + ".md";
    assert '/' !in last by {
      assert forall c | c in last :: c in segs[n - 1] || c in ".md";
    }
    assert |last| >= 4;
    var parts := segs[..n - 1] + [last];
    assert forall k | 0 <= k < n - 1 :: parts[k] == segs[k];
    assert parts[n - 1] == last;
  }

  /** A join of non-empty pieces starts with the first piece's first character and ends
      with the last piece's last character. */
  lemma {:induction false} JoinFirstLast(segs: seq<string>)
    requires |segs| >= 1 && forall k | 0 <= k < |segs| :: ValidPart(segs[k])
    ensures var j := JoinWith(segs, "/");
      |j| > 0 && j[0] != '/' && j[|j| - 1] != '/'
    decreases |segs|
  {
    if |segs| > 1 {
      JoinFirstLast(segs[1..]);
    }
  }

  /** Appending to the join appends to its last piece. */
  lemma {:induction false} JoinWithAppendLast(parts: seq<string>, sep: string, x: string)
    requires |parts| >= 1
    ensures JoinWith(parts, sep) + x == JoinWith(parts[..|parts| - 1] + [parts[|parts| - 1] + x], sep)
    decreases |parts|
  {
    var n := |parts|;
    var q := parts[..n - 1] + [parts[n - 1] + x];
    if n > 1 {
      JoinWithAppendLast(parts[1..], sep, x);
      assert q[1..] == parts[1..][..n - 2] + [parts[1..][n - 2] + x];
      assert q[0] == parts[0];
    }
  }

  /** The documented example: `https://docs.crawl4ai.com/core/deep-crawling/` maps to
      `base_dir/core/deep-crawling.md`, here for any scheme and host. */
  lemma DocstringExample(scheme: string, host: string, baseDir: Path)
    requires Url.IsSchemeName(scheme)
    requires forall c :: c in host ==> c !in {'/', '?', '#'}
    ensures UrlToFilePath(scheme + "://" + host + "/core/deep-crawling/", baseDir).parts
      == baseDir.parts + ["core", "deep-crawling.md"]
  {
    var path := "/core/deep-crawling/";
    var segs := ["core", "deep-crawling"];
    Url.SplitComposedPath(scheme, host, path);
    DocstringSegments(path, segs);
    InteriorSlashes(scheme + "://" + host + path, baseDir, segs, "/");
  }

  lemma DocstringSegments(path: string, segs: seq<string>)
    requires path == "/core/deep-crawling/" && segs == ["core", "deep-crawling"]
    ensures path == "/" + JoinWith(segs, "/") + "/"
    ensures forall k | 0 <= k < |segs| :: ValidPart(segs[k])
    ensures segs[..|segs| - 1] + [segs[|segs| - 1] + ".md"] == ["core", "deep-crawling.md"]
  {
    DocstringJoin(segs);
    DocstringPath(path, JoinWith(segs, "/"));
    DocstringValid(segs);
    DocstringLast(segs);
  }

  lemma DocstringPath(path: string, joined: string)
    requires path == "/core/deep-crawling/" && joined == "core/deep-crawling"
    ensures path == "/" + joined + "/"
  {
  }

  lemma DocstringValid(segs: seq<string>)
    requires segs == ["core", "deep-crawling"]
    ensures forall k | 0 <= k < |segs| :: ValidPart(segs[k])
  {
    assert ValidPart(segs[0]) && ValidPart(segs[1]);
  }

  lemma DocstringJoin(segs: seq<string>)
    requires segs == ["core", "deep-crawling"]
    ensures JoinWith(segs, "/") == "core/deep-crawling"
  {
    assert JoinWith(segs, "/") == "core" + "/" + "deep-crawling";
  }

  lemma DocstringLast(segs: seq<string>)
    requires segs == ["core", "deep-crawling"]
    ensures segs[..1] + [segs[1] + ".md"] == ["core", "deep-crawling.md"]
  {
    var last := segs[1] + ".md";
    assert last == "deep-crawling.md";
    assert segs[..1] + [last] == ["core", last];
  }
}
