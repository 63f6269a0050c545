/** `core.py`: the earlier, breadth-first-only version of the two crawl operations. Apart from
    the strategy it does what the packaged version does, so it is stated in terms of that. */
module LegacyCore {
  import opened Wrappers
  import opened Paths
  import Domain
  import PathMap
  import opened Storage
  import opened Saving
  import opened Core

  /** The one strategy of this version: breadth-first, never leaving the start domain. */
  function BfsStrategy(domain: string, maxDepth: int, maxPages: int, urlPrefix: Option<string>): (c: DeepCrawl)
    ensures c.order == BFS && !c.includeExternal
    ensures c.domain == domain && c.maxDepth == maxDepth && c.maxPages == maxPages
    ensures c.urlPrefix == urlPrefix
  {
    DeepCrawl(BFS, domain, maxDepth, maxPages, false, urlPrefix)
  }

  /** This version crawls exactly as the packaged one does when asked for anything but "dfs". */
  lemma BfsIsDefault(strategy: string, domain: string, maxDepth: int, maxPages: int, urlPrefix: Option<string>)
    requires strategy != "dfs"
    ensures BfsStrategy(domain, maxDepth, maxPages, urlPrefix)
      == SelectStrategy(strategy, domain, maxDepth, maxPages, urlPrefix)
  {
  }

  /** `crawl_documentation`: the output directory is made and the streamed pages saved,
      under a breadth-first crawl. */
  method CrawlDocumentation(fs: FileSystem, startUrl: string, outputDir: Option<string>,
                            maxPages: int, maxDepth: int, urlPrefix: Option<string>, stream: seq<Page>)
    returns (crawl: DeepCrawl, results: seq<Entry>)
    modifies fs
    ensures var outputPath := Parse(OutputDirFor(startUrl, outputDir));
      && crawl == BfsStrategy(Domain.ExtractDomain(startUrl), maxDepth, maxPages, urlPrefix)
      && results == Entries(stream, outputPath)
      && fs.files == WrittenBy(old(fs.files), Plan(stream, Saver(outputPath)))
      && fs.dirs == MadeBy(old(fs.dirs) + AncestorsOrSelf(outputPath), Plan(stream, Saver(outputPath)))
  {
    var domain := Domain.ExtractDomain(startUrl);
    var dir := if outputDir.None? then Domain.ExtractOutputDirName(domain) else outputDir.value;
    var outputPath := Parse(dir);
    fs.MakeDirs(outputPath);
    crawl := BfsStrategy(domain, maxDepth, maxPages, urlPrefix);
    results := SaveStream(fs, stream, outputPath);
  }

  /** `crawl_single_page`: the same steps as the packaged version. */
  method CrawlSinglePage(fs: FileSystem, url: string, outputDir: Option<string>, fetched: Page)
    returns (cleaned: string)
    modifies fs
    ensures cleaned == SinglePageResult(fetched)
    ensures !fetched.success || outputDir.None? || outputDir == Some("") ==>
      fs.files == old(fs.files) && fs.dirs == old(fs.dirs)
    ensures fetched.success && outputDir.Some? && outputDir.value != "" ==>
      var outputPath := Parse(outputDir.value);
      var file := PathMap.UrlToFilePath(url, outputPath);
      && fs.files == old(fs.files)[file := FileContent(url, cleaned)]
      && fs.dirs == old(fs.dirs) + AncestorsOrSelf(outputPath) + AncestorsOrSelf(Parent(file))
  {
    cleaned := Core.CrawlSinglePage(fs, url, outputDir, fetched);
  }
}
