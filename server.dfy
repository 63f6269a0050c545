/** `src/crawl4ai_mcp_server/server.py`: the two tools' replies around the crawl operations:
    the browser preset, the failure reply of `crawl_page`, and the validation, the summary and
    the "Saved to" directory of `crawl_docs`. */
module Server {
  import opened Wrappers
  import opened Text
  import opened Paths
  import Domain
  import Content
  import PathMap
  import opened Storage
  import opened Saving
  import opened Core

  /** The two browser presets a tool can choose between. */
  datatype BrowserPreset = Fast | Stealth

  /** `_get_browser_config`. */
  function GetBrowserConfig(stealth: bool): (b: BrowserPreset)
    ensures b == Stealth <==> stealth
  {
    if stealth then Stealth else Fast
  }

  // ---------------------------------------------------------------- crawl_page

  /** The reply of `crawl_page` for the markdown `crawl_single_page` returned: a failure
      message when it is empty, else the markdown itself. The reply is never empty. */
  function CrawlPageReply(url: string, markdown: string): (r: string)
    ensures r != ""
    ensures markdown != "" ==> r == markdown
    ensures markdown == "" ==> StartsWith(r, "Failed to crawl: ") && EndsWith(r, url)
  {
    if markdown == "" then "Failed to crawl: " + url else markdown
  }

  /** The failure message comes back exactly when the fetch failed or cleaning left nothing. */
  lemma CrawlPageFails(url: string, fetched: Page)
    ensures var r := CrawlPageReply(url, SinglePageResult(fetched));
      (!fetched.success || Content.Clean(fetched.markdown.GetOr("")) == "") ==> r == "Failed to crawl: " + url
    ensures var r := CrawlPageReply(url, SinglePageResult(fetched));
      fetched.success && Content.Clean(fetched.markdown.GetOr("")) != "" ==>
        r == Content.Clean(fetched.markdown.GetOr(""))
  {
  }

  /** `crawl_page`, with `fetched` the crawler's record for `url`. */
  method CrawlPage(fs: FileSystem, url: string, outputDir: Option<string>, stealth: bool, fetched: Page)
    returns (browser: BrowserPreset, reply: string)
    modifies fs
    ensures browser == GetBrowserConfig(stealth)
    ensures reply == CrawlPageReply(url, SinglePageResult(fetched))
    ensures !fetched.success || outputDir.None? || outputDir == Some("") ==>
      fs.files == old(fs.files) && fs.dirs == old(fs.dirs)
    ensures fetched.success && outputDir.Some? && outputDir.value != "" ==>
      var outputPath := Parse(outputDir.value);
      var file := PathMap.UrlToFilePath(url, outputPath);
      && fs.files == old(fs.files)[file := FileContent(url, SinglePageResult(fetched))]
      && fs.dirs == old(fs.dirs) + AncestorsOrSelf(outputPath) + AncestorsOrSelf(Parent(file))
  {
    browser := GetBrowserConfig(stealth);
    var markdown := CrawlSinglePage(fs, url, outputDir, fetched);
    reply := CrawlPageReply(url, markdown);
  }

  // ---------------------------------------------------------------- crawl_docs: replies

  /** The strategy names `crawl_docs` accepts. */
  predicate ValidStrategy(strategy: string) {
    strategy == "bfs" || strategy == "dfs"
  }

  function InvalidStrategyMessage(strategy: string): string {
    "Invalid strategy: " + strategy + ". Use 'bfs' or 'dfs'."
  }

  function NoPagesMessage(url: string): string {
    "No pages crawled from: " + url
  }

  /** The first summary line, with the number of pages. */
  function Header(n: nat): string {
    "Crawled " + NatToString(n) + " pages:\n"
  }

  /** The summary line of one list element. */
  function ResultLine(e: Entry): string {
    "- [" + IntToString(e.depth) + "] " + e.url + " -> " + e.file
  }

  /** The last summary line. */
  function SavedToLine(dir: Path): string {
    "\nSaved to: " + ToString(dir) + "/"
  }

  /** The lines appended by the loop over the results. */
  function ResultLines(results: seq<Entry>): (r: seq<string>)
    ensures |r| == |results|
    ensures forall k | 0 <= k < |results| :: r[k] == ResultLine(results[k])
    decreases |results|
  {
    if |results| == 0 then []
    else
      var init := results[..|results| - 1];
      assert forall k | 0 <= k < |init| :: init[k] == results[k];
      ResultLines(init) + [ResultLine(results[|results| - 1])]
  }

  lemma ResultLinesStep(results: seq<Entry>, i: nat)
    requires i < |results|
    ensures ResultLines(results[..i + 1]) == ResultLines(results[..i]) + [ResultLine(results[i])]
  {
    assert results[..i + 1][..i] == results[..i];
  }

  /** The middle of `[head] + xs + [last]` is `xs`. */
  lemma Framed<T>(head: T, xs: seq<T>, last: T)
    ensures var r := [head] + xs + [last];
      |r| == |xs| + 2 && r[0] == head && r[|r| - 1] == last
      && forall k | 0 <= k < |xs| :: r[k + 1] == xs[k]
  {
  }

  /** `summary_lines`: the header, one line per result in order, and the "Saved to" line. */
  function SummaryOf(results: seq<Entry>, dir: Path): (r: seq<string>)
    ensures |r| == |results| + 2
    ensures r[0] == Header(|results|) && r[|r| - 1] == SavedToLine(dir)
    ensures forall k | 0 <= k < |results| :: r[k + 1] == ResultLine(results[k])
  {
    var lines := ResultLines(results);
    Framed(Header(|results|), lines, SavedToLine(dir));
    [Header(|results|)] + lines + [SavedToLine(dir)]
  }

  /** The header tells the number of pages. */
  lemma HeaderCount(m: nat, n: nat)
    requires Header(m) == Header(n)
    ensures m == n
  {
    var a, b := NatToString(m), NatToString(n);
    assert |a| == |b|;
    assert a == Header(m)[8..8 + |a|];
    assert b == Header(n)[8..8 + |b|];
    NatToStringInjective(m, n);
  }

  /** No page is listed exactly when no page was fetched. */
  lemma NoPagesIffNoSuccess(stream: seq<Page>, outputPath: Path)
    ensures Entries(stream, outputPath) == [] <==> forall k | 0 <= k < |stream| :: !stream[k].success
  {
    EntriesAreSuccesses(stream, outputPath);
    SuccessesEmpty(stream);
  }

  lemma {:induction false} SuccessesEmpty(stream: seq<Page>)
    ensures Successes(stream) == [] <==> forall k | 0 <= k < |stream| :: !stream[k].success
    decreases |stream|
  {
    if |stream| > 0 {
      SuccessesEmpty(stream[1..]);
      assert forall k | 1 <= k < |stream| :: stream[k] == stream[1..][k - 1];
    }
  }

  /** The summary lines, built as `crawl_docs` builds them. */
  method SummaryLines(results: seq<Entry>, dir: Path) returns (lines: seq<string>)
    ensures lines == SummaryOf(results, dir)
  {
    var header := Header(|results|);
    lines := [header];
    var i := 0;
    while i < |results|
      invariant 0 <= i <= |results|
      invariant lines == [header] + ResultLines(results[..i])
    {
      ResultLinesStep(results, i);
      lines := lines + [ResultLine(results[i])];
      i := i + 1;
    }
    assert lines == [header] + ResultLines(results) by {
      assert results[..|results|] == results;
    }
    lines := lines + [SavedToLine(dir)];
  }

  // ---------------------------------------------------------------- crawl_docs: "Saved to"

  /** The walk-up as written in `crawl_docs`: from `p`, climb while `p` is not its own parent
      and its name is not `output_dir`, stopping below the top-level component. A missing
      `output_dir` is never equal to a name. */
  function WalkUpFrom(p: Path, outputDir: Option<string>): (r: Path)
    ensures |r.parts| <= |p.parts| && r == Prefix(p, |r.parts|)
    decreases |p.parts|
  {
    if Parent(p) == p || Some(Name(p)) == outputDir then p
    else if Name(Parent(p)) == "" then p
    else WalkUpFrom(Parent(p), outputDir)
  }

  /** Where the walk may stop: at the top-level component (or above), or at a component
      named `output_dir`. */
  predicate Stops(q: Path, outputDir: Option<string>) {
    |q.parts| <= 1 || Some(Name(q)) == outputDir
  }

  /** On a path pathlib would build, the walk ends at the deepest ancestor-or-self where it
      may stop. */
  lemma {:induction false} WalkUpIsDeepestStop(p: Path, outputDir: Option<string>)
    requires Valid(p)
    ensures var r := WalkUpFrom(p, outputDir);
      && Stops(r, outputDir)
      && forall j | |r.parts| < j <= |p.parts| :: !Stops(Prefix(p, j), outputDir)
    decreases |p.parts|
  {
    var n := |p.parts|;
    if n >= 2 {
      assert Name(Parent(p)) == p.parts[n - 2] != "";
      if Some(Name(p)) != outputDir {
        var q := Parent(p);
        assert Valid(q) by {
          forall i | 0 <= i < |q.parts| ensures ValidPart(q.parts[i]) {
            assert q.parts[i] == p.parts[i];
          }
        }
        WalkUpIsDeepestStop(q, outputDir);
        forall j | |WalkUpFrom(p, outputDir).parts| < j <= n
          ensures !Stops(Prefix(p, j), outputDir)
        {
          if j < n {
            assert Prefix(p, j) == Prefix(q, j);
          } else {
            assert Prefix(p, j) == p;
          }
        }
      }
    }
  }

  /** `crawl_docs`'s loop, with its `break`. */
  method WalkUp(start: Path, outputDir: Option<string>) returns (p: Path)
    ensures p == WalkUpFrom(start, outputDir)
  {
    p := start;
    while Parent(p) != p && Some(Name(p)) != outputDir
      invariant WalkUpFrom(p, outputDir) == WalkUpFrom(start, outputDir)
      decreases |p.parts|
    {
      if Name(Parent(p)) == "" {
        break;
      }
      p := Parent(p);
    }
  }

  /** The "Saved to" directory as written: the walk-up from the first file's directory. */
  function SavedToAsWritten(results: seq<Entry>, outputDir: Option<string>): (r: Path)
    requires |results| > 0
    ensures r in AncestorsOrSelf(Parent(Parse(results[0].file)))
  {
    var start := Parent(Parse(results[0].file));
    var r := WalkUpFrom(start, outputDir);
    assert r == Prefix(start, |r.parts|);
    r
  }

  /** The "Saved to" directory as evidently intended: the output directory the crawl used. */
  function SavedTo(url: string, outputDir: Option<string>): (r: Path)
    ensures Valid(r)
  {
    Parse(OutputDirFor(url, outputDir))
  }

  /** Every listed file lies inside the reported directory. */
  lemma SavedToHoldsEntries(url: string, outputDir: Option<string>, stream: seq<Page>)
    ensures var es := Entries(stream, SavedTo(url, outputDir));
      forall k | 0 <= k < |es| :: Inside(Parse(es[k].file), SavedTo(url, outputDir))
  {
    EntriesInside(map[], stream, SavedTo(url, outputDir));
  }

  /** With no component named `output_dir` below the top, the walk climbs to the top-level
      component. */
  lemma {:induction false} WalkUpToTop(q: Path, outputDir: Option<string>)
    requires Valid(q) && |q.parts| >= 1
    requires forall j | 1 <= j < |q.parts| :: Some(q.parts[j]) != outputDir
    ensures WalkUpFrom(q, outputDir) == Prefix(q, 1)
  {
    WalkUpIsDeepestStop(q, outputDir);
  }

  /** A valid first component and a valid second one, joined with "/", name a two-level path. */
  lemma ParseTwo(a: string, b: string)
    requires ValidPart(a) && ValidPart(b)
    ensures Parse(a + "/" + b) == Path(false, [a, b])
  {
    assert JoinWith([a, b], "/") == a + "/" + b by {
      assert JoinWith([a, b][1..], "/") == b;
    }
    SplitJoin([a, b], '/');
    KeepValidParts([a, b]);
  }

  /** The as-written walk misreports a two-level output directory "a/b": it passes "b", since
      no component is named "a/b", and reports "a". */
  lemma SavedToAsWrittenMisses(url: string, a: string, b: string, stream: seq<Page>)
    requires ValidPart(a) && ValidPart(b)
    requires |Entries(stream, SavedTo(url, Some(a + "/" + b)))| > 0
    ensures SavedTo(url, Some(a + "/" + b)) == Path(false, [a, b])
    ensures SavedToAsWritten(Entries(stream, SavedTo(url, Some(a + "/" + b))), Some(a + "/" + b)) == Path(false, [a])
  {
    ParseTwo(a, b);
    assert (a + "/" + b)[|a|] == '/';
    SavedToHoldsEntries(url, Some(a + "/" + b), stream);
    WalkUpPassesPath(Entries(stream, SavedTo(url, Some(a + "/" + b))), Path(false, [a, b]), a + "/" + b);
  }

  /** A name with a "/" in it is no component's name: the walk from a file inside `dir`
      climbs to `dir`'s first component. */
  lemma WalkUpPassesPath(results: seq<Entry>, dir: Path, d: string)
    requires |results| > 0 && |dir.parts| >= 1 && '/' in d
    requires Inside(Parse(results[0].file), dir)
    ensures SavedToAsWritten(results, Some(d)) == Prefix(dir, 1)
  {
    var file := Parse(results[0].file);
    var q := Parent(file);
    assert Valid(q) by {
      forall i | 0 <= i < |q.parts| ensures ValidPart(q.parts[i]) {
        assert q.parts[i] == file.parts[i];
      }
    }
    forall j | 1 <= j < |q.parts| ensures Some(q.parts[j]) != Some(d) {
      assert ValidPart(q.parts[j]);
    }
    WalkUpToTop(q, Some(d));
    assert q.parts[..1] == file.parts[..1] == dir.parts[..1];
  }

  /** A subdirectory named like the output directory stops the as-written walk too early. */
  lemma WalkUpStopsShort(d: string, x: string)
    ensures WalkUpFrom(Parent(Path(false, [d, d, x])), Some(d)) == Path(false, [d, d])
  {
  }

  /** Where no "output_dir" is given, the as-written walk does report the derived directory. */
  lemma SavedToAgreesByDefault(url: string, stream: seq<Page>)
    requires OutputDirFor(url, None) != ""
    requires |Entries(stream, SavedTo(url, None))| > 0
    ensures SavedToAsWritten(Entries(stream, SavedTo(url, None)), None) == SavedTo(url, None)
  {
    DerivedIsOneComponent(url);
    SavedToHoldsEntries(url, None, stream);
    WalkUpReachesTop(Entries(stream, SavedTo(url, None)), SavedTo(url, None));
  }

  /** A non-empty derived directory name is one path component. */
  lemma DerivedIsOneComponent(url: string)
    requires OutputDirFor(url, None) != ""
    ensures SavedTo(url, None) == Path(false, [OutputDirFor(url, None)])
  {
    var d := OutputDirFor(url, None);
    DerivedDirIsOneName(url);
    PathMap.SegmentsOfPart(d);
  }

  /** Without an "output_dir" the walk from a file inside a one-component directory ends there. */
  lemma WalkUpReachesTop(results: seq<Entry>, dir: Path)
    requires |results| > 0 && |dir.parts| == 1 && !dir.absolute
    requires Inside(Parse(results[0].file), dir)
    ensures SavedToAsWritten(results, None) == dir
  {
    var file := Parse(results[0].file);
    var q := Parent(file);
    assert Valid(q) by {
      forall i | 0 <= i < |q.parts| ensures ValidPart(q.parts[i]) {
        assert q.parts[i] == file.parts[i];
      }
    }
    WalkUpToTop(q, None);
    assert q.parts[..1] == file.parts[..1];
  }

  // ---------------------------------------------------------------- crawl_docs

  /** The reply of `crawl_docs` once the crawl has listed `results`: "No pages crawled", or the
      summary whose "Saved to" line is the as-written walk-up from the first file's directory. */
  function DocsReply(url: string, results: seq<Entry>, outputDir: Option<string>): string {
    if results == [] then NoPagesMessage(url)
    else JoinWith(SummaryOf(results, SavedToAsWritten(results, outputDir)), "\n")
  }

  /** Without an "output_dir", a non-empty reply names the directory the files were written
      under. */
  lemma DocsReplyByDefault(url: string, stream: seq<Page>)
    requires OutputDirFor(url, None) != ""
    requires Entries(stream, SavedTo(url, None)) != []
    ensures var es := Entries(stream, SavedTo(url, None));
      DocsReply(url, es, None) == JoinWith(SummaryOf(es, SavedTo(url, None)), "\n")
  {
    SavedToAgreesByDefault(url, stream);
  }

  /** `crawl_docs`: an unknown strategy is refused before anything is crawled; otherwise the
      crawl writes under the output directory and its list is summarised, the "Saved to" line
      naming the directory the walk-up from the first file stops at. */
  method CrawlDocs(fs: FileSystem, url: string, outputDir: Option<string>, maxPages: int, maxDepth: int,
                   urlPrefix: Option<string>, strategy: string, stealth: bool, stream: seq<Page>)
    returns (browser: Option<BrowserPreset>, crawl: Option<DeepCrawl>, reply: string)
    modifies fs
    ensures !ValidStrategy(strategy) ==>
      && browser.None? && crawl.None? && reply == InvalidStrategyMessage(strategy)
      && fs.files == old(fs.files) && fs.dirs == old(fs.dirs)
    ensures ValidStrategy(strategy) ==>
      var dir := SavedTo(url, outputDir);
      && browser == Some(GetBrowserConfig(stealth))
      && crawl == Some(SelectStrategy(strategy, Domain.ExtractDomain(url), maxDepth, maxPages, urlPrefix))
      && reply == DocsReply(url, Entries(stream, dir), outputDir)
      && fs.files == WrittenBy(old(fs.files), Plan(stream, Saver(dir)))
      && fs.dirs == MadeBy(old(fs.dirs) + AncestorsOrSelf(dir), Plan(stream, Saver(dir)))
  {
    if !ValidStrategy(strategy) {
      return None, None, InvalidStrategyMessage(strategy);
    }
    var b := GetBrowserConfig(stealth);
    browser := Some(b);
    var c, results := CrawlDocumentation(fs, url, outputDir, maxPages, maxDepth, urlPrefix, strategy, stream);
    crawl := Some(c);
    if results == [] {
      return browser, crawl, NoPagesMessage(url);
    }
    var savedTo := WalkUp(Parent(Parse(results[0].file)), outputDir);
    var lines := SummaryLines(results, savedTo);
    reply := JoinWith(lines, "\n");
  }
}
