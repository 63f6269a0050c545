/** `utils/domain.py`: the domain of a URL, and the output directory name derived from it. */
module Domain {
  import opened Wrappers
  import opened Text
  import Url

  /** `extract_domain`: the URL's authority (`urlparse(url).netloc`), exactly as written,
      or "" when it has none. */
  function ExtractDomain(url: string): (d: string)
    ensures forall c :: c in d ==> c !in {'/', '?', '#'}
  {
    Url.Split(url).authority.GetOr("")
  }

  /** The domain of `scheme://host...` is `host` verbatim: no lower-casing, and a port
      or user information stays in it. */
  lemma ExtractDomainOf(scheme: string, host: string, rest: string)
    requires Url.IsSchemeName(scheme)
    requires forall c :: c in host ==> c !in {'/', '?', '#'}
    requires rest == "" || rest[0] in {'/', '?', '#'}
    ensures ExtractDomain(scheme + "://" + host + rest) == host
  {
    Url.SplitComposed(scheme, host, rest);
  }

  /** The first step of `extract_output_dir_name`: every "www." is deleted, in one
      left-to-right pass over the name. */
  function RemoveWww(domain: string): string
  {
    Replace(domain, "www.", "")
  }

  /** `extract_output_dir_name`: "www." removed, then every "." turned into "_". */
  function ExtractOutputDirName(domain: string): (r: string)
    ensures '.' !in r
    ensures var w := RemoveWww(domain);
      |r| == |w| && forall i :: 0 <= i < |w| ==> r[i] == (if w[i] == '.' then '_' else w[i])
  {
    ReplaceCharPointwise(RemoveWww(domain), '.', '_');
    Replace(RemoveWww(domain), ".", "_")
  }

  /** A leading "www." goes like any other. */
  lemma RemoveWwwLeading(b: string)
    ensures RemoveWww("www." + b) == RemoveWww(b)
  {
    var s := "www." + b;
    assert s[..4] == "www." && s[4..] == b;
  }

  /** No two consecutive "w", so nothing to delete. */
  predicate NoDoubleW(s: string) {
    forall i | 0 <= i < |s| - 1 :: s[i] != 'w' || s[i + 1] != 'w'
  }

  /** A name without "ww" keeps every character through the first step. */
  lemma {:induction false} RemoveWwwKeeps(s: string)
    requires NoDoubleW(s)
    ensures RemoveWww(s) == s
    decreases |s|
  {
    if |s| >= 4 {
      assert s[..4] != "www." by { assert s[0] != 'w' || s[1] != 'w'; }
      assert NoDoubleW(s[1..]) by {
        forall i | 0 <= i < |s[1..]| - 1 ensures s[1..][i] != 'w' || s[1..][i + 1] != 'w' {
          assert s[1..][i] == s[i + 1];
        }
      }
      RemoveWwwKeeps(s[1..]);
      assert s == [s[0]] + s[1..];
    }
  }

  /** A "w"-free head is passed over unchanged: deletions happen further in. */
  lemma {:induction false} RemoveWwwSkips(a: string, b: string)
    requires 'w' !in a
    ensures RemoveWww(a + b) == a + RemoveWww(b)
    decreases |a|
  {
    if |a| > 0 {
      var s := a + b;
      assert s[0] == a[0];
      assert s[1..] == a[1..] + b;
      RemoveWwwSkips(a[1..], b);
      if |s| >= 4 {
        assert s[..4] != "www.";
      }
      assert a == [a[0]] + a[1..];
    } else {
      assert a + b == b;
    }
  }


  /** A dotted name whose labels survive the first step becomes its labels joined by "_". */
  lemma {:induction false} LabelsJoined(labels: seq<string>)
    requires forall k | 0 <= k < |labels| :: '.' !in labels[k]
    ensures Replace(JoinWith(labels, "."), ".", "_") == JoinWith(labels, "_")
    decreases |labels|
  {
    if |labels| == 1 {
      ReplaceCharAbsent(labels[0], '.', '_');
    } else if |labels| > 1 {
      LabelsJoined(labels[1..]);
      var rest := JoinWith(labels[1..], ".");
      assert JoinWith(labels, ".") == labels[0] + ("." + rest);
      ReplaceCharAppend(labels[0], "." + rest, '.', '_');
      ReplaceCharAppend(".", rest, '.', '_');
      ReplaceCharAbsent(labels[0], '.', '_');
      assert Replace(".", ".", "_") == "_";
      assert JoinWith(labels, "_") == labels[0] + ("_" + JoinWith(labels[1..], "_"));
    }
  }

  /** The output directory name of a "www."-free dotted name. */
  lemma OutputDirNameOfLabels(labels: seq<string>)
    requires forall k | 0 <= k < |labels| :: '.' !in labels[k]
    requires RemoveWww(JoinWith(labels, ".")) == JoinWith(labels, ".")
    ensures ExtractOutputDirName(JoinWith(labels, ".")) == JoinWith(labels, "_")
  {
    LabelsJoined(labels);
  }
}

/** The docstring examples of `utils/domain.py`, worked out. The literal facts of each
    example are checked on their own, apart from the general lemmas they feed. */
module DomainExamples {
  import opened Text
  import opened Domain

  lemma Join2(labels: seq<string>, sep: string)
    requires |labels| == 2
    ensures JoinWith(labels, sep) == labels[0] + sep + labels[1]
  {
    assert JoinWith(labels[1..], sep) == labels[1];
  }

  lemma Join3(labels: seq<string>, sep: string)
    requires |labels| == 3
    ensures JoinWith(labels, sep) == labels[0] + sep + (labels[1] + sep + labels[2])
  {
    Join2(labels[1..], sep);
  }

  /** A "ww"-free name of two dot-free labels: its output directory name is the labels
      joined by "_". */
  lemma TwoLabels(a: string, b: string)
    requires '.' !in a && '.' !in b
    requires NoDoubleW(a + "." + b)
    ensures ExtractOutputDirName(a + "." + b) == a + "_" + b
  {
    var labels := [a, b];
    Join2(labels, ".");
    Join2(labels, "_");
    RemoveWwwKeeps(a + "." + b);
    OutputDirNameOfLabels(labels);
  }

  /** The same for three labels. */
  lemma ThreeLabels(a: string, b: string, c: string)
    requires '.' !in a && '.' !in b && '.' !in c
    requires NoDoubleW(a + "." + b + "." + c)
    ensures ExtractOutputDirName(a + "." + b + "." + c) == a + "_" + b + "_" + c
  {
    var labels := [a, b, c];
    Join3(labels, ".");
    Join3(labels, "_");
    assert a + "." + b + "." + c == a + "." + (b + "." + c);
    assert a + "_" + b + "_" + c == a + "_" + (b + "_" + c);
    RemoveWwwKeeps(a + "." + b + "." + c);
    assert forall k | 0 <= k < |labels| :: '.' !in labels[k];
    OutputDirNameOfLabels(labels);
  }

  lemma FigmaLiterals()
    ensures "developers.figma.com" == "developers" + "." + "figma" + "." + "com"
    ensures "developers_figma_com" == "developers" + "_" + "figma" + "_" + "com"
    ensures NoDoubleW("developers.figma.com")
  {
  }

  /** Docstring example: developers.figma.com -> developers_figma_com. */
  lemma ExampleFigma()
    ensures ExtractOutputDirName("developers.figma.com") == "developers_figma_com"
  {
    FigmaLiterals();
    ThreeLabels("developers", "figma", "com");
  }

  lemma Crawl4aiLiterals()
    ensures "docs.crawl4ai.com" == "docs" + "." + "crawl4ai" + "." + "com"
    ensures "docs_crawl4ai_com" == "docs" + "_" + "crawl4ai" + "_" + "com"
    ensures NoDoubleW("docs.crawl4ai.com")
  {
  }

  /** Docstring example: docs.crawl4ai.com -> docs_crawl4ai_com. */
  lemma ExampleCrawl4ai()
    ensures ExtractOutputDirName("docs.crawl4ai.com") == "docs_crawl4ai_com"
  {
    Crawl4aiLiterals();
    ThreeLabels("docs", "crawl4ai", "com");
  }

  lemma ExampleComLiterals()
    ensures "example.com" == "example" + "." + "com"
    ensures "example_com" == "example" + "_" + "com"
    ensures "www.example.com" == "www." + "example.com"
    ensures NoDoubleW("example.com")
  {
  }

  /** Docstring example: www.example.com -> example_com. */
  lemma ExampleWww()
    ensures ExtractOutputDirName("www.example.com") == "example_com"
  {
    ExampleComLiterals();
    TwoLabels("example", "com");
    RemoveWwwLeading("example.com");
  }

  lemma InnerLiterals()
    ensures "docs.example.com" == "docs" + "." + "example" + "." + "com"
    ensures "docs_example_com" == "docs" + "_" + "example" + "_" + "com"
    ensures NoDoubleW("docs.example.com")
  {
  }

  /** The first step deletes the inner "www.". */
  lemma DropsInnerWww()
    ensures RemoveWww("docs.www.example.com") == "docs.example.com"
  {
    assert "docs.www.example.com" == "docs." + ("www." + "example.com");
    assert "docs.example.com" == "docs." + "example.com";
    assert NoDoubleW("example.com");
    RemoveWwwSkips("docs.", "www." + "example.com");
    RemoveWwwLeading("example.com");
    RemoveWwwKeeps("example.com");
  }

  /** A "www." inside the name is deleted too, not only a leading one. */
  lemma ExampleInnerWww()
    ensures ExtractOutputDirName("docs.www.example.com") == "docs_example_com"
  {
    InnerLiterals();
    ThreeLabels("docs", "example", "com");
    DropsInnerWww();
    RemoveWwwKeeps("docs.example.com");
  }
}
