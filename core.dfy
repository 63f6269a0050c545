/** `src/crawl4ai_mcp_server/core.py`: a single page, or a whole documentation site, crawled
    and saved as markdown files. The crawler itself is an input: the page records it streams. */
module Core {
  import opened Wrappers
  import opened Text
  import opened Paths
  import Domain
  import PathMap
  import Content
  import opened Storage
  import opened Saving

  /** A page record of the crawler: its URL, whether it was fetched, its raw markdown if it
      has any, and the depth in its metadata if recorded. */
  datatype Page = Page(url: string, success: bool, markdown: Option<string>, depth: Option<int>)

  datatype Order = BFS | DFS

  /** The deep-crawl strategy handed to the crawler. */
  datatype DeepCrawl = DeepCrawl(order: Order, domain: string, maxDepth: int, maxPages: int,
                                 includeExternal: bool, urlPrefix: Option<string>)

  /** The strategy for a strategy name: "dfs" is depth-first, any other name breadth-first;
      the crawl never leaves the start URL's domain. */
  function SelectStrategy(strategy: string, domain: string, maxDepth: int, maxPages: int,
                          urlPrefix: Option<string>): (c: DeepCrawl)
    ensures c.order == DFS <==> strategy == "dfs"
    ensures !c.includeExternal
    ensures c.domain == domain && c.maxDepth == maxDepth && c.maxPages == maxPages
    ensures c.urlPrefix == urlPrefix
  {
    DeepCrawl(if strategy == "dfs" then DFS else BFS, domain, maxDepth, maxPages, false, urlPrefix)
  }

  /** The output directory: the one given, or else the name derived from the start URL's domain. */
  function OutputDirFor(startUrl: string, outputDir: Option<string>): (d: string)
    ensures outputDir.Some? ==> d == outputDir.value
    ensures outputDir.None? ==> d == Domain.ExtractOutputDirName(Domain.ExtractDomain(startUrl))
  {
    match outputDir
    case Some(dir) => dir
    case None => Domain.ExtractOutputDirName(Domain.ExtractDomain(startUrl))
  }

  /** A directory name derived from the domain never holds a "." or a "/". */
  lemma DerivedDirIsOneName(startUrl: string)
    ensures var d := OutputDirFor(startUrl, None); '.' !in d && '/' !in d
  {
    var w := Domain.RemoveWww(Domain.ExtractDomain(startUrl));
    RemoveKeepsSlashFree(Domain.ExtractDomain(startUrl));
    assert '/' !in w;
  }

  /** Deleting "www." brings in no "/". */
  lemma RemoveKeepsSlashFree(domain: string)
    requires '/' !in domain
    ensures '/' !in Domain.RemoveWww(domain)
  {
    RemoveNoNewChar(domain, "www.", '/');
  }

  lemma {:induction false} RemoveNoNewChar(s: string, pattern: string, c: char)
    requires c !in s && |pattern| > 0
    ensures c !in Replace(s, pattern, "")
    decreases |s|
  {
    if |s| >= |pattern| && s[..|pattern|] == pattern {
      RemoveNoNewChar(s[|pattern|..], pattern, c);
    } else if |s| > 0 {
      RemoveNoNewChar(s[1..], pattern, c);
    }
  }

  /** The markdown a page is saved with: `clean_navigation_content(markdown or "")`. */
  function Cleaned(p: Page): string {
    Content.Clean(p.markdown.GetOr(""))
  }

  /** A saved file: a heading with the URL, a blank line, then the cleaned markdown. */
  function FileContent(url: string, cleaned: string): (c: string)
    ensures StartsWith(c, "# ") && EndsWith(c, cleaned)
  {
    "# " + url + "\n\n" + cleaned
  }

  /** The file a page goes to. */
  function FileOf(p: Page, outputPath: Path): Path {
    PathMap.UrlToFilePath(p.url, outputPath)
  }

  /** The list element for a fetched page: the depth defaults to 0. */
  function EntryOf(p: Page, outputPath: Path): (e: Entry)
    ensures e.url == p.url && e.file == ToString(FileOf(p, outputPath))
    ensures e.depth == if p.depth.Some? then p.depth.value else 0
  {
    Entry(p.url, p.depth.GetOr(0), ToString(FileOf(p, outputPath)))
  }

  /** What the loop does with one page: a fetched page is saved, a failed one skipped. */
  function SaveOf(p: Page, outputPath: Path): (s: Option<Save>)
    ensures s.Some? <==> p.success
  {
    if p.success then Some(Save(FileOf(p, outputPath), FileContent(p.url, Cleaned(p)), EntryOf(p, outputPath)))
    else None
  }

  /** The save of every page, as a function. */
  function Saver(outputPath: Path): Page -> Option<Save> {
    p => SaveOf(p, outputPath)
  }

  /** `save` saves exactly the fetched pages. */
  ghost predicate SavesFetched(save: Page -> Option<Save>) {
    forall p :: save(p).Some? <==> p.success
  }

  lemma SaverSavesFetched(outputPath: Path)
    ensures SavesFetched(Saver(outputPath))
  {
    forall p
      ensures Saver(outputPath)(p).Some? <==> p.success
    {
      assert Saver(outputPath)(p) == SaveOf(p, outputPath);
    }
  }

  /** The saves of a whole stream, page by page. */
  function Plan(stream: seq<Page>, save: Page -> Option<Save>): (r: seq<Option<Save>>)
    ensures |r| == |stream|
  {
    seq(|stream|, k requires 0 <= k < |stream| => save(stream[k]))
  }

  /** The list returned for `stream`. */
  function Entries(stream: seq<Page>, outputPath: Path): seq<Entry> {
    Listed(Plan(stream, Saver(outputPath)))
  }

  /** The fetched pages, in stream order. */
  function Successes(stream: seq<Page>): (r: seq<Page>)
    ensures |r| <= |stream|
    ensures forall k | 0 <= k < |r| :: r[k].success
    decreases |stream|
  {
    if |stream| == 0 then []
    else (if stream[0].success then [stream[0]] else []) + Successes(stream[1..])
  }

  lemma PlanAppend(a: seq<Page>, b: seq<Page>, save: Page -> Option<Save>)
    ensures Plan(a + b, save) == Plan(a, save) + Plan(b, save)
  {
  }

  /** The saves that happen are those of the fetched pages, in order. */
  lemma {:induction false} DoneOfPlan(stream: seq<Page>, save: Page -> Option<Save>)
    requires SavesFetched(save)
    ensures var d := Done(Plan(stream, save));
      |d| == |Successes(stream)| && forall k | 0 <= k < |d| :: Some(d[k]) == save(Successes(stream)[k])
    decreases |stream|
  {
    if |stream| > 0 {
      var plan := Plan(stream, save);
      DoneOfPlan(stream[1..], save);
      assert plan[1..] == Plan(stream[1..], save);
      assert plan == [plan[0]] + plan[1..];
      DoneAppend([plan[0]], plan[1..]);
      assert save(stream[0]).Some? <==> stream[0].success;
    }
  }

  /** One list element per fetched page, in stream order; failed pages add nothing. */
  lemma EntriesAreSuccesses(stream: seq<Page>, outputPath: Path)
    ensures |Entries(stream, outputPath)| == |Successes(stream)|
    ensures forall k | 0 <= k < |Successes(stream)| ::
      Entries(stream, outputPath)[k] == EntryOf(Successes(stream)[k], outputPath)
  {
    var plan := Plan(stream, Saver(outputPath));
    ListedAreDone(plan);
    SaverSavesFetched(outputPath);
    DoneOfPlan(stream, Saver(outputPath));
    forall k | 0 <= k < |Successes(stream)|
      ensures Entries(stream, outputPath)[k] == EntryOf(Successes(stream)[k], outputPath)
    {
      assert Saver(outputPath)(Successes(stream)[k]) == SaveOf(Successes(stream)[k], outputPath);
    }
  }

  /** A failed page can be dropped from the stream without changing the list. */
  lemma FailureIgnored(a: seq<Page>, p: Page, b: seq<Page>, outputPath: Path)
    requires !p.success
    ensures Entries(a + [p] + b, outputPath) == Entries(a + b, outputPath)
  {
    var save := Saver(outputPath);
    SaverSavesFetched(outputPath);
    var pa, pb := Plan(a, save), Plan(b, save);
    PlanAppend(a + [p], b, save);
    PlanAppend(a, [p], save);
    PlanAppend(a, b, save);
    assert Plan([p], save) == [save(p)] == [None];
    ListedAppend(pa + [None], pb);
    ListedAppend(pa, [None]);
    ListedAppend(pa, pb);
    assert Listed([None]) == [];
  }

  /** A path no fetched page maps to keeps what it had, and stays absent if it was absent. */
  lemma WrittenElsewhere(files: map<Path, string>, stream: seq<Page>, outputPath: Path, q: Path)
    requires forall k | 0 <= k < |stream| :: stream[k].success ==> FileOf(stream[k], outputPath) != q
    ensures var w := WrittenBy(files, Plan(stream, Saver(outputPath)));
      (q in w <==> q in files) && (q in files ==> w[q] == files[q])
  {
    var plan := Plan(stream, Saver(outputPath));
    forall k | 0 <= k < |plan| && plan[k].Some?
      ensures plan[k].value.file != q
    {
      assert plan[k] == SaveOf(stream[k], outputPath);
    }
    WrittenUntouched(files, plan, q);
  }

  /** The last write wins: a fetched page that no later fetched page shares a file with
      leaves its own content there. */
  lemma LastWriteWins(files: map<Path, string>, stream: seq<Page>, outputPath: Path, i: nat)
    requires i < |stream| && stream[i].success
    requires forall k | i < k < |stream| ::
      stream[k].success ==> FileOf(stream[k], outputPath) != FileOf(stream[i], outputPath)
    ensures var w := WrittenBy(files, Plan(stream, Saver(outputPath))); var q := FileOf(stream[i], outputPath);
      q in w && w[q] == FileContent(stream[i].url, Cleaned(stream[i]))
  {
    var plan := Plan(stream, Saver(outputPath));
    assert plan[i] == SaveOf(stream[i], outputPath);
    forall k | i < k < |plan| && plan[k].Some?
      ensures plan[k].value.file != plan[i].value.file
    {
      assert plan[k] == SaveOf(stream[k], outputPath);
    }
    WrittenLastWins(files, plan, i);
  }

  /** Each page's save names, in its list element, exactly the file it writes, and that
      file lies inside the output directory. */
  lemma SaveOfInside(p: Page, outputPath: Path)
    requires Valid(outputPath) && p.success
    ensures var s := SaveOf(p, outputPath).value;
      Parse(s.entry.file) == s.file && Inside(s.file, outputPath)
  {
    ParseToString(FileOf(p, outputPath));
  }

  /** Every element's file lies inside the output directory and has been written; every file
      the crawl adds lies inside the output directory too. */
  lemma EntriesInside(files: map<Path, string>, stream: seq<Page>, outputPath: Path)
    requires Valid(outputPath)
    ensures var w := WrittenBy(files, Plan(stream, Saver(outputPath)));
      forall k | 0 <= k < |Entries(stream, outputPath)| ::
        Inside(Parse(Entries(stream, outputPath)[k].file), outputPath)
        && Parse(Entries(stream, outputPath)[k].file) in w
    ensures var w := WrittenBy(files, Plan(stream, Saver(outputPath)));
      files.Keys <= w.Keys && forall q | q in w && q !in files :: Inside(q, outputPath)
  {
    var plan := Plan(stream, Saver(outputPath));
    var w := WrittenBy(files, plan);
    ListedAreDone(plan);
    WrittenKeys(files, plan);
    var es := Entries(stream, outputPath);
    forall k | 0 <= k < |es|
      ensures Inside(Parse(es[k].file), outputPath) && Parse(es[k].file) in w
    {
      var j := DoneIndex(plan, k);
      assert plan[j] == SaveOf(stream[j], outputPath);
      SaveOfInside(stream[j], outputPath);
    }
    forall q | q in w && q !in files
      ensures Inside(q, outputPath)
    {
      var j :| 0 <= j < |plan| && plan[j].Some? && plan[j].value.file == q;
      assert plan[j] == SaveOf(stream[j], outputPath);
      SaveOfInside(stream[j], outputPath);
    }
  }

  /** Where the `k`-th save that happens sits in the plan. */
  lemma {:induction false} DoneIndex(plan: seq<Option<Save>>, k: nat) returns (j: nat)
    requires k < |Done(plan)|
    ensures j < |plan| && plan[j] == Some(Done(plan)[k])
    decreases |plan|
  {
    var head := match plan[0] case None => [] case Some(s) => [s];
    assert Done(plan) == head + Done(plan[1..]);
    if k < |head| {
      j := 0;
    } else {
      var i := DoneIndex(plan[1..], k - |head|);
      j := i + 1;
    }
  }

  // ---------------------------------------------------------------- the operations

  /** `open(file, "w")`, then the heading line and the cleaned markdown written to it. */
  method WriteMarkdown(fs: FileSystem, file: Path, url: string, cleaned: string)
    requires Parent(file) in fs.dirs
    modifies fs
    ensures fs.files == old(fs.files)[file := FileContent(url, cleaned)]
    ensures fs.dirs == old(fs.dirs)
  {
    fs.OpenForWrite(file);
    var header := "# " + url + "\n\n";
    fs.Append(file, header);
    assert "" + header == header;
    fs.Append(file, cleaned);
  }

  /** One pass of the loop: a fetched page's file directory is made, the page written, and
      its list element built; a failed page changes nothing. */
  method SavePage(fs: FileSystem, page: Page, outputPath: Path) returns (s: Option<Save>)
    modifies fs
    ensures s == SaveOf(page, outputPath)
    ensures s.None? ==> fs.files == old(fs.files) && fs.dirs == old(fs.dirs)
    ensures s.Some? ==>
      && fs.files == old(fs.files)[s.value.file := s.value.content]
      && fs.dirs == old(fs.dirs) + AncestorsOrSelf(Parent(s.value.file))
  {
    if !page.success {
      return None;
    }
    var depth := page.depth.GetOr(0);
    var file := PathMap.UrlToFilePath(page.url, outputPath);
    fs.MakeDirs(Parent(file));
    var cleaned := Content.CleanNavigationContent(page.markdown.GetOr(""));
    WriteMarkdown(fs, file, page.url, cleaned);
    s := Some(Save(file, FileContent(page.url, cleaned), Entry(page.url, depth, ToString(file))));
  }

  /** The `async for` loop of `crawl_documentation`: each fetched page is written to its file,
      under a heading with its URL, and listed; a failed page is skipped. */
  method SaveStream(fs: FileSystem, stream: seq<Page>, outputPath: Path) returns (results: seq<Entry>)
    modifies fs
    ensures results == Entries(stream, outputPath)
    ensures fs.files == WrittenBy(old(fs.files), Plan(stream, Saver(outputPath)))
    ensures fs.dirs == MadeBy(old(fs.dirs), Plan(stream, Saver(outputPath)))
  {
    var plan := Plan(stream, Saver(outputPath));
    results := [];
    var i := 0;
    while i < |stream|
      invariant 0 <= i <= |stream|
      invariant results == Listed(plan[..i])
      invariant fs.files == WrittenBy(old(fs.files), plan[..i])
      invariant fs.dirs == MadeBy(old(fs.dirs), plan[..i])
    {
      var s := SavePage(fs, stream[i], outputPath);
      assert plan[i] == s;
      Step(old(fs.files), old(fs.dirs), plan, i);
      if s.Some? {
        results := results + [s.value.entry];
      }
      i := i + 1;
    }
    assert plan[..|stream|] == plan;
  }

  /** `crawl_documentation`: the output directory is made, the strategy chosen, and the
      streamed pages saved. Returns the strategy handed to the crawler and the list. */
  method CrawlDocumentation(fs: FileSystem, startUrl: string, outputDir: Option<string>,
                            maxPages: int, maxDepth: int, urlPrefix: Option<string>,
                            strategy: string, stream: seq<Page>)
    returns (crawl: DeepCrawl, results: seq<Entry>)
    modifies fs
    ensures var outputPath := Parse(OutputDirFor(startUrl, outputDir));
      && crawl == SelectStrategy(strategy, Domain.ExtractDomain(startUrl), maxDepth, maxPages, urlPrefix)
      && results == Entries(stream, outputPath)
      && fs.files == WrittenBy(old(fs.files), Plan(stream, Saver(outputPath)))
      && fs.dirs == MadeBy(old(fs.dirs) + AncestorsOrSelf(outputPath), Plan(stream, Saver(outputPath)))
  {
    var domain := Domain.ExtractDomain(startUrl);
    var dir := if outputDir.None? then Domain.ExtractOutputDirName(domain) else outputDir.value;
    var outputPath := Parse(dir);
    fs.MakeDirs(outputPath);
    crawl := SelectStrategy(strategy, domain, maxDepth, maxPages, urlPrefix);
    results := SaveStream(fs, stream, outputPath);
  }

  /** What `crawl_single_page` returns: "" for a failed fetch, else the cleaned markdown. */
  function SinglePageResult(fetched: Page): (r: string)
    ensures !fetched.success ==> r == ""
    ensures fetched.success ==> r == Content.Clean(fetched.markdown.GetOr(""))
  {
    if fetched.success then Cleaned(fetched) else ""
  }

  /** `crawl_single_page`, with `fetched` the crawler's record for `url`. A file is written
      only for a fetched page and a non-empty `outputDir`, and then inside `outputDir`
      itself: the fallback to the domain's name sits behind a test that already failed. */
  method CrawlSinglePage(fs: FileSystem, url: string, outputDir: Option<string>, fetched: Page)
    returns (cleaned: string)
    modifies fs
    ensures cleaned == SinglePageResult(fetched)
    ensures !fetched.success || outputDir.None? || outputDir == Some("") ==>
      fs.files == old(fs.files) && fs.dirs == old(fs.dirs)
    ensures fetched.success && outputDir.Some? && outputDir.value != "" ==>
      var outputPath := Parse(outputDir.value);
      var file := PathMap.UrlToFilePath(url, outputPath);
      && fs.files == old(fs.files)[file := FileContent(url, cleaned)]
      && fs.dirs == old(fs.dirs) + AncestorsOrSelf(outputPath) + AncestorsOrSelf(Parent(file))
  {
    if !fetched.success {
      return "";
    }
    cleaned := Content.CleanNavigationContent(fetched.markdown.GetOr(""));
    if outputDir.Some? && outputDir.value != "" {
      var domain := Domain.ExtractDomain(url);
      var dir := if outputDir.value != "" then outputDir.value else Domain.ExtractOutputDirName(domain);
      var outputPath := Parse(dir);
      fs.MakeDirs(outputPath);
      var file := PathMap.UrlToFilePath(url, outputPath);
      fs.MakeDirs(Parent(file));
      WriteMarkdown(fs, file, url, cleaned);
    }
  }
}
