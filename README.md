# crawl4ai-mcp-server, modelled in Dafny

crawl4ai-mcp-server is an MCP server with two tools. `crawl_page` crawls one web page and returns its markdown. `crawl_docs` crawls a whole documentation site and saves every page as a markdown file. The browser work is done by the crawl4ai library. This project models the deterministic code around it:

- **Cleaning** the markdown of a page (`clean_navigation_content`). It drops the navigation before the first heading and the footer after the content, strips whitespace, and collapses runs of blank lines.
- **Mapping** a page URL to its file (`url_to_filepath`).
- **Naming** the output directory after the domain (`extract_domain`, `extract_output_dir_name`).
- **Saving** the crawled pages: the result loop of `crawl_documentation` and the branches of `crawl_single_page`. Both the packaged version and the older BFS-only version are modelled.
- **Replying**: the two tools' browser preset, strategy validation, failure messages, summary lines and "Saved to" directory.
- **Unique file names**: `name.ext`, `name_1.ext`, … in the test helpers, and saving texts under such names.

The crawler is an input to the model: a sequence of page records `Page(url, success, markdown?, depth?)`, in the order the crawl streams them. The file system is a class with a `map` of file contents and a `set` of directories, and the operations update it in place. pathlib paths are values `Path(absolute, parts)`. URL parsing is the split of section 3 of RFC 3986.

Modules, one per source file or concept:

- `Wrappers`: Option and Result.
- `Text`: `str.strip`, `split`, `join`, `replace`, `str(int)`.
- `Url`: the RFC 3986 URL split.
- `Paths`: pathlib.
- `Domain` and `DomainExamples`: `utils/domain.py`.
- `PathMap`: `utils/path.py`.
- `Content`: `strategies/content.py`.
- `Storage`: the file system.
- `Saving`: what a sequence of saves leaves behind.
- `Core`: `src/crawl4ai_mcp_server/core.py`.
- `LegacyCore`: the top-level `core.py`.
- `Server`: `server.py`.
- `UniqueFile`: `tests/utils/file.py`.

Where the code and the documentation disagree, the model follows the code:

- `crawl_single_page` only writes a file when `output_dir` is truthy. Its fallback to the domain-derived name (line 61 of the packaged version, line 49 of the older one) therefore never applies. The model keeps the dead branch, and `Core.CrawlSinglePage` states that the file's path components always extend those of `output_dir` itself.
- The `crawl_docs` summary reports a "Saved to" directory that is not always the output directory. `Server.CrawlDocs` replies as the code does, with the walk-up. The directory the files were actually written to is stated separately, as the corrected half of the entry under "## Findings".

## Model

| member | source | states |
|---|---|---|
| `Content.HeadingIsStrippedHash` | src/crawl4ai_mcp_server/strategies/content.py:28-35 | a line counts as a heading exactly when its stripped form starts with "#" |
| `Content.SkippedNotHeading` | src/crawl4ai_mcp_server/strategies/content.py:31-32 | blank lines, list items and links are never headings, so skipping them loses no heading |
| `Content.FooterLines` | src/crawl4ai_mcp_server/strategies/content.py:40-49 | a line is a footer line iff it contains one of the five literal phrases, or "[Next"/"[Previous" followed by whitespace and a later "]", or "FigJam", "Enterprise" and "Learn" in that order |
| `Content.ContentStart` | src/crawl4ai_mcp_server/strategies/content.py:23-37 | the start index is a valid line index of a non-empty line list |
| `Content.ContentStartIsFirstHeading` | src/crawl4ai_mcp_server/strategies/content.py:27-37 | the start is the smallest i >= 1 whose line is a heading, or 0 when none is; a heading on line 0 never wins, and other text lines do not stop the scan |
| `Content.FindContentStart` | src/crawl4ai_mcp_server/strategies/content.py:26-37 | the forward loop with `continue` and `break` computes exactly that start |
| `Content.ContentEnd` | src/crawl4ai_mcp_server/strategies/content.py:24-52 | start < end <= len(lines), so the start line is never cut |
| `Content.ContentEndIsLastFooter` | src/crawl4ai_mcp_server/strategies/content.py:52-59 | the end is the largest i with start < i < len(lines) whose unstripped line is a footer line, or len(lines); footer lines above it are kept |
| `Content.FindContentEnd` | src/crawl4ai_mcp_server/strategies/content.py:52-59 | the nested backward loop with its two breaks computes exactly that end |
| `Content.Kept` | src/crawl4ai_mcp_server/strategies/content.py:61 | the kept slice is non-empty and starts with the start line |
| `Content.NoTripleContains` | src/crawl4ai_mcp_server/strategies/content.py:64 | "no three newlines in a row" is the same as "no substring \n\n\n" |
| `Content.CollapseLeading` | src/crawl4ai_mcp_server/strategies/content.py:64 | a collapsed text starts with as many newlines as the original, but at most two |
| `Content.CollapseNoTriple` | src/crawl4ai_mcp_server/strategies/content.py:64 | after the substitution no three newlines follow each other |
| `Content.CollapseEnds` | src/crawl4ai_mcp_server/strategies/content.py:64 | the substitution keeps the first and the last character |
| `Content.CollapseFixes` | src/crawl4ai_mcp_server/strategies/content.py:64 | a text without three newlines in a row is left unchanged |
| `Content.CollapseIdempotent` | src/crawl4ai_mcp_server/strategies/content.py:64 | collapsing twice is collapsing once |
| `Content.CollapseKeepsText` | src/crawl4ai_mcp_server/strategies/content.py:64 | the substitution removes newlines and nothing else |
| `Content.CollapseTrimmed` | src/crawl4ai_mcp_server/strategies/content.py:61-64 | collapsing a stripped text keeps it stripped |
| `Content.CleanShape` | src/crawl4ai_mcp_server/strategies/content.py:61-66 | the cleaned text has no whitespace at either end and no "\n\n\n", for every input |
| `Content.CleanNavigationContent` | src/crawl4ai_mcp_server/strategies/content.py:6-66 | the imperative function returns the kept lines joined with "\n", stripped, then collapsed |
| `Content.KeptAll` | src/crawl4ai_mcp_server/strategies/content.py:27-59 | with no heading after line 0 and no footer line after it, every line is kept |
| `Content.CleanWithoutMarkers` | src/crawl4ai_mcp_server/strategies/content.py:22-66 | such a text is cleaned to collapse(strip(text)) |
| `Content.CleanEmpty` | src/crawl4ai_mcp_server/strategies/content.py:22-66 | the empty text is cleaned to "" |
| `Content.CleanStartsAtHeading` | src/crawl4ai_mcp_server/strategies/content.py:35-64 | when a heading after line 0 was found, the result starts with its "#" |
| `Text.Strip` | src/crawl4ai_mcp_server/strategies/content.py:61 | `str.strip()`: the result is a slice of the input with only whitespace (Python's `isspace`) outside it, and no whitespace at either end |
| `Text.StripChars` | utils/path.py:20 | `str.strip(chars)`: only characters of `chars` are removed, and only at the ends |
| `Text.SplitOn` | src/crawl4ai_mcp_server/strategies/content.py:22 | `split("\n")` gives at least one piece, none holding the separator |
| `Text.JoinSplit` | src/crawl4ai_mcp_server/strategies/content.py:22-61 | joining the pieces of a split with the separator gives the text back |
| `Text.SplitJoin` | src/crawl4ai_mcp_server/strategies/content.py:22-61 | splitting a join of separator-free pieces gives the pieces back |
| `Text.ReplaceCharPointwise` | src/crawl4ai_mcp_server/utils/domain.py:36 | replacing one character by another keeps the length and maps position by position |
| `Text.NatToStringRoundTrip` | src/crawl4ai_mcp_server/server.py:130 | reading back the decimal form of n gives n |
| `Text.NatToStringInjective` | src/crawl4ai_mcp_server/server.py:130 | different numbers print differently |
| `Url.Split` | utils/path.py:20 | the path holds no "?" or "#", the query no "#", the authority no "/", "?" or "#" |
| `Url.RecomposeSplit` | utils/path.py:20 | the split loses nothing: recomposing the components gives the URL back |
| `Url.PathIgnoresSuffix` | utils/path.py:20 | appending a query or fragment changes neither the path nor the authority |
| `Url.SplitComposed` | src/crawl4ai_mcp_server/utils/domain.py:15-16 | in `scheme://host rest` the authority is `host` as written |
| `Url.SplitComposedPath` | utils/path.py:10-11 | in `scheme://host/path` the path is `/path` and there is no query or fragment |
| `Paths.KeepParts` | utils/path.py:25 | the components pathlib keeps are non-empty, not "." and slash-free |
| `Paths.Parse` | src/crawl4ai_mcp_server/core.py:109 | `Path(s)` always builds a well-formed path |
| `Paths.ParseToString` | src/crawl4ai_mcp_server/core.py:155 | `Path(str(p)) == p`: the recorded file string names the written file |
| `Paths.Join` | utils/path.py:25 | `base / rel` of a well-formed base is well-formed |
| `Paths.Parent` | src/crawl4ai_mcp_server/server.py:136-140 | `.parent` drops the last component, and the root and the empty path are their own parents |
| `Domain.ExtractDomain` | src/crawl4ai_mcp_server/utils/domain.py:6-16 | the domain is the URL's authority, or "", and holds no "/", "?" or "#" |
| `Domain.ExtractDomainOf` | src/crawl4ai_mcp_server/utils/domain.py:15-16 | the domain of `scheme://host…` is `host` unchanged: no lower-casing, port and user information kept |
| `Domain.ExtractOutputDirName` | src/crawl4ai_mcp_server/utils/domain.py:19-36 | the name has no "." and, after "www." removal, the same length, with only the "." positions changed to "_" |
| `Domain.RemoveWwwLeading` | src/crawl4ai_mcp_server/utils/domain.py:33 | a leading "www." is removed |
| `Domain.RemoveWwwSkips` | src/crawl4ai_mcp_server/utils/domain.py:33 | a "w"-free head is kept and removal continues after it, so an inner "www." goes too |
| `Domain.RemoveWwwKeeps` | src/crawl4ai_mcp_server/utils/domain.py:33 | a name without "ww" is unchanged by the removal |
| `Domain.LabelsJoined` | src/crawl4ai_mcp_server/utils/domain.py:36 | dot-free labels joined by "." become the labels joined by "_" |
| `Domain.OutputDirNameOfLabels` | src/crawl4ai_mcp_server/utils/domain.py:33-36 | a "www."-free dotted name becomes its labels joined by "_" |
| `DomainExamples.TwoLabels` | src/crawl4ai_mcp_server/utils/domain.py:33-36 | a "ww"-free name a.b of dot-free labels gives a_b |
| `DomainExamples.ThreeLabels` | src/crawl4ai_mcp_server/utils/domain.py:33-36 | a "ww"-free name a.b.c of dot-free labels gives a_b_c |
| `DomainExamples.DropsInnerWww` | src/crawl4ai_mcp_server/utils/domain.py:33 | the first step turns docs.www.example.com into docs.example.com |
| `DomainExamples.ExampleFigma` | src/crawl4ai_mcp_server/utils/domain.py:22 | developers.figma.com gives developers_figma_com |
| `DomainExamples.ExampleCrawl4ai` | src/crawl4ai_mcp_server/utils/domain.py:23 | docs.crawl4ai.com gives docs_crawl4ai_com |
| `DomainExamples.ExampleWww` | src/crawl4ai_mcp_server/utils/domain.py:24 | www.example.com gives example_com |
| `DomainExamples.ExampleInnerWww` | src/crawl4ai_mcp_server/utils/domain.py:33 | docs.www.example.com gives docs_example_com: every "www." goes |
| `PathMap.Stem` | utils/path.py:20-23 | the stem is non-empty and neither starts nor ends with "/" |
| `PathMap.UrlToFilePath` | utils/path.py:7-26 | the file's path components strictly extend `base_dir`'s, and its name ends in ".md" |
| `PathMap.IndexPage` | utils/path.py:22-23 | a path that is empty or only slashes maps to `base_dir/index.md` |
| `PathMap.IgnoresQueryAndFragment` | utils/path.py:20 | `…/a?x=1` and `…/a#f` map to the file of `…/a` |
| `PathMap.SamePathSameFile` | utils/path.py:20-25 | the file depends on the URL path alone |
| `PathMap.InteriorSlashes` | utils/path.py:25 | `/s1/…/sn` (with or without trailing "/") maps to `base_dir/s1/…/sn.md` |
| `PathMap.DocstringExample` | utils/path.py:10 | `…/core/deep-crawling/` maps to `base_dir/core/deep-crawling.md` |
| `Storage.FileSystem.MakeDirs` | src/crawl4ai_mcp_server/core.py:109-110 | `mkdir(parents=True, exist_ok=True)` adds the path and all its ancestors and touches no file |
| `Storage.FileSystem.OpenForWrite` | src/crawl4ai_mcp_server/core.py:150 | `open(p, "w")` needs the parent directory and leaves an empty file |
| `Storage.FileSystem.Append` | src/crawl4ai_mcp_server/core.py:151-152 | `write` appends to the open file |
| `Saving.Done` | src/crawl4ai_mcp_server/core.py:136-157 | the saves that happen are at most as many as the pages |
| `Saving.DoneAppend` | src/crawl4ai_mcp_server/core.py:136-157 | the saves of a concatenated stream are the concatenated saves |
| `Saving.ListedAreDone` | src/crawl4ai_mcp_server/core.py:155 | one list element per save that happens, in order |
| `Saving.ListedAppend` | src/crawl4ai_mcp_server/core.py:155 | the list of concatenated saves is the concatenation of the lists |
| `Saving.WrittenUntouched` | src/crawl4ai_mcp_server/core.py:150-152 | a path no save writes keeps its content, and stays absent if absent |
| `Saving.WrittenLastWins` | src/crawl4ai_mcp_server/core.py:150-152 | a save with no later save to the same file leaves its content there |
| `Saving.WrittenKeys` | src/crawl4ai_mcp_server/core.py:150-152 | earlier files stay, every saved file exists, and every new file is a saved one |
| `Saving.Step` | src/crawl4ai_mcp_server/core.py:136-157 | one more page: the list, the files and the directories after it |
| `Core.SelectStrategy` | src/crawl4ai_mcp_server/core.py:113-120 | "dfs" gives depth-first and every other name breadth-first; never external; the start domain and the limits are passed on |
| `Core.OutputDirFor` | src/crawl4ai_mcp_server/core.py:103-107 | a given `output_dir` is used as given; a missing one is the name derived from the domain |
| `Core.DerivedDirIsOneName` | src/crawl4ai_mcp_server/core.py:106-107 | the derived name holds no "." and no "/" |
| `Core.RemoveKeepsSlashFree` | src/crawl4ai_mcp_server/utils/domain.py:33 | removing "www." brings in no "/" |
| `Core.RemoveNoNewChar` | src/crawl4ai_mcp_server/utils/domain.py:33 | deleting a pattern brings in no new character |
| `Core.FileContent` | src/crawl4ai_mcp_server/core.py:150-152 | a saved file starts with "# " and ends with the cleaned markdown |
| `Core.EntryOf` | src/crawl4ai_mcp_server/core.py:138-155 | a list element holds the URL, the metadata depth or 0, and the file as a string |
| `Core.SaveOf` | src/crawl4ai_mcp_server/core.py:137-157 | a page is saved iff it was fetched |
| `Core.SaverSavesFetched` | src/crawl4ai_mcp_server/core.py:137 | the loop's save function saves exactly the fetched pages |
| `Core.Plan` | src/crawl4ai_mcp_server/core.py:136 | one save decision per streamed page |
| `Core.Successes` | src/crawl4ai_mcp_server/core.py:137 | the fetched pages, in stream order |
| `Core.DoneOfPlan` | src/crawl4ai_mcp_server/core.py:136-157 | the saves that happen are those of the fetched pages, in order |
| `Core.EntriesAreSuccesses` | src/crawl4ai_mcp_server/core.py:136-157 | the list has exactly one element per fetched page, in stream order, each that page's element |
| `Core.FailureIgnored` | src/crawl4ai_mcp_server/core.py:156-157 | removing a failed page from the stream does not change the list |
| `Core.WrittenElsewhere` | src/crawl4ai_mcp_server/core.py:142-152 | a path no fetched page maps to is unchanged |
| `Core.LastWriteWins` | src/crawl4ai_mcp_server/core.py:142-152 | a fetched page with no later fetched page on the same file leaves `"# url\n\n" + cleaned` there |
| `Core.SaveOfInside` | src/crawl4ai_mcp_server/core.py:142-155 | the element's file string names the written file, whose path components extend the output directory's |
| `Core.EntriesInside` | src/crawl4ai_mcp_server/core.py:133-157 | every listed file exists and its path components extend the output directory's, and the same holds for every file the crawl adds |
| `Core.DoneIndex` | src/crawl4ai_mcp_server/core.py:136-155 | every save that happens comes from some page of the stream |
| `Core.WriteMarkdown` | src/crawl4ai_mcp_server/core.py:150-152 | the file becomes the heading line, a blank line and the cleaned markdown, and the directories are unchanged |
| `Core.SavePage` | src/crawl4ai_mcp_server/core.py:137-157 | a fetched page gets its directory made and its file written; a failed page changes nothing |
| `Core.SaveStream` | src/crawl4ai_mcp_server/core.py:133-157 | the loop returns the list of the fetched pages and leaves the files and directories of all the saves |
| `Core.CrawlDocumentation` | src/crawl4ai_mcp_server/core.py:77-162 | the output directory is made, the strategy is selected by name, and the stream is saved under that directory's path components |
| `Core.SinglePageResult` | src/crawl4ai_mcp_server/core.py:50-74 | "" for a failed fetch, else the cleaned markdown (or the cleaned "" when there is none) |
| `Core.CrawlSinglePage` | src/crawl4ai_mcp_server/core.py:22-74 | nothing is written for a failed fetch or a missing or empty `output_dir`; otherwise exactly one file, whose path components extend `output_dir`'s |
| `LegacyCore.BfsStrategy` | core.py:97-103 | always breadth-first, never external, with the start domain and the limits |
| `LegacyCore.BfsIsDefault` | core.py:97-103 | the same strategy the packaged version picks for any name but "dfs" |
| `LegacyCore.CrawlDocumentation` | core.py:65-142 | the output directory is made and the stream saved under its path components, breadth-first |
| `LegacyCore.CrawlSinglePage` | core.py:14-62 | as in the packaged version: "" on failure, a write only for a truthy `output_dir` |
| `Server.GetBrowserConfig` | src/crawl4ai_mcp_server/server.py:31-33 | the stealth preset iff `stealth` |
| `Server.CrawlPageReply` | src/crawl4ai_mcp_server/server.py:75-77 | never empty: the markdown when there is any, else "Failed to crawl: " and the URL |
| `Server.CrawlPageFails` | src/crawl4ai_mcp_server/server.py:73-77 | the failure reply comes exactly when the fetch failed or cleaning left nothing |
| `Server.CrawlPage` | src/crawl4ai_mcp_server/server.py:54-77 | picks the preset, runs the single-page crawl and replies as above, with its writes |
| `Server.ResultLines` | src/crawl4ai_mcp_server/server.py:131-132 | one line per result, in order |
| `Server.ResultLinesStep` | src/crawl4ai_mcp_server/server.py:131-132 | one more result appends its line |
| `Server.SummaryOf` | src/crawl4ai_mcp_server/server.py:130-141 | n + 2 lines: the header with n, the result lines in order, the "Saved to" line |
| `Server.HeaderCount` | src/crawl4ai_mcp_server/server.py:130 | the header determines the number of pages |
| `Server.NoPagesIffNoSuccess` | src/crawl4ai_mcp_server/server.py:126-127 | "No pages crawled" comes exactly when no page was fetched |
| `Server.SuccessesEmpty` | src/crawl4ai_mcp_server/server.py:126 | no fetched pages iff every page failed |
| `Server.SummaryLines` | src/crawl4ai_mcp_server/server.py:130-141 | the appending loop builds exactly those lines |
| `Server.WalkUpFrom` | src/crawl4ai_mcp_server/server.py:136-140 | the walk ends at an ancestor-or-self of its start, and each step is to a strictly shorter parent |
| `Server.WalkUpIsDeepestStop` | src/crawl4ai_mcp_server/server.py:137-139 | it ends at the deepest ancestor-or-self that is top-level or named `output_dir`, passing no such one below it |
| `Server.WalkUp` | src/crawl4ai_mcp_server/server.py:136-140 | the `while` loop with its `break` computes that walk; `crawl_docs` runs it from the first file's directory |
| `Server.SavedToAsWritten` | src/crawl4ai_mcp_server/server.py:135-141 | the reported directory is an ancestor-or-self of the first file's directory |
| `Server.SavedToAsWrittenMisses` | src/crawl4ai_mcp_server/server.py:135-141 | for `output_dir` "a/b" the files go to a/b, but a is reported |
| `Server.WalkUpPassesPath` | src/crawl4ai_mcp_server/server.py:137 | a name with "/" matches no component, so the walk climbs to the top component |
| `Server.WalkUpToTop` | src/crawl4ai_mcp_server/server.py:136-140 | with no component named `output_dir` below the top, the walk ends at the top component |
| `Server.WalkUpStopsShort` | src/crawl4ai_mcp_server/server.py:137 | a subdirectory named like `output_dir` stops the walk inside the output directory |
| `Server.SavedTo` | src/crawl4ai_mcp_server/server.py:141 | the corrected report: the output directory the crawl used, well-formed |
| `Server.SavedToHoldsEntries` | src/crawl4ai_mcp_server/server.py:141 | the path components of every listed file extend those of the reported directory |
| `Server.SavedToAgreesByDefault` | src/crawl4ai_mcp_server/server.py:135-141 | without `output_dir`, the walk as written does report the derived directory |
| `Server.DerivedIsOneComponent` | src/crawl4ai_mcp_server/core.py:106-109 | a non-empty derived name is a one-component path |
| `Server.WalkUpReachesTop` | src/crawl4ai_mcp_server/server.py:136-140 | without `output_dir`, the walk from inside a one-component directory ends there |
| `Server.DocsReplyByDefault` | src/crawl4ai_mcp_server/server.py:126-143 | without `output_dir`, a non-empty reply's "Saved to" line names the directory the files were written under |
| `Server.CrawlDocs` | src/crawl4ai_mcp_server/server.py:80-143 | an unknown strategy is refused before anything is crawled or written. Otherwise the crawl writes under the output directory. The reply is "No pages crawled from" when nothing was fetched. Otherwise it is the summary joined by "\n", whose "Saved to" line is the walk-up from the first file's directory, as written |
| `UniqueFile.OsPathJoin` | tests/utils/file.py:27 | `os.path.join`: an absolute name replaces the directory; otherwise the result starts with the directory and ends with the name |
| `UniqueFile.OsPathJoinInjective` | tests/utils/file.py:30-34 | joining names that agree on their first character is one-to-one |
| `UniqueFile.CandidateName` | tests/utils/file.py:30-34 | every candidate starts with the file name and ends with "." and the extension |
| `UniqueFile.CandidateNameInjective` | tests/utils/file.py:30-34 | different numbers give different names |
| `UniqueFile.CandidateInjective` | tests/utils/file.py:30-34 | different numbers give different paths |
| `UniqueFile.ImageCount` | tests/utils/file.py:33-35 | n different numbers give n different candidates |
| `UniqueFile.FreeValue` | tests/utils/file.py:33-35 | among \|taken\| + 1 candidates one is free |
| `UniqueFile.FreeCandidate` | tests/utils/file.py:33-35 | a free candidate exists with a bounded number, so the search ends |
| `UniqueFile.FileStore.MakeDirs` | tests/utils/file.py:28 | `os.makedirs(exist_ok=True)` fails exactly on an existing regular file |
| `UniqueFile.FileStore.Write` | tests/utils/file.py:62-63 | the file holds exactly the text |
| `UniqueFile.FileStore.FindFree` | tests/utils/file.py:30-35 | the result does not exist and is the first candidate that does not |
| `UniqueFile.FileStore.CreateUniqueFilename` | tests/utils/file.py:6-37 | empty names raise; an existing regular file in the directory's place raises; otherwise the directory is made and the first free candidate is returned, with "md" for an empty extension |
| `UniqueFile.FileStore.SaveText` | tests/utils/file.py:40-70 | None, with no change, for an empty text or any failure; otherwise a fresh path, one of `create_unique_filename`'s candidates in the folder with spaces in the name turned into "_", now holds the text |
| `UniqueFile.ListStep` | tests/utils/file.py:93-95 | saving one more text the way `save_text_to_unique_file` does, and appending its result, keeps the list's invariant: each result is saved exactly when allowed, under a candidate name in the folder, paths are distinct, earlier files stay, and no other file appears |
| `UniqueFile.FileStore.SaveList` | tests/utils/file.py:73-99 | None for an empty list. Otherwise there is one result per text, in order. Text k is saved exactly when `save_text_to_unique_file` would save it on the starting file system. Each saved text is in a file of its own, named `name.ext` or `name_k.ext` in the given folder as `create_unique_filename` names it, with spaces in the name turned into "_". Saved paths are pairwise distinct. Earlier files are kept, no other file appears, and the directory is added exactly when something was saved |
| `UniqueFile.DefaultExt` | tests/utils/file.py:24-25 | an empty extension becomes "md"; any other is kept |
| `UniqueFile.SpacesToUnderscores` | tests/utils/file.py:59 | the same length, no space left, every other character kept |
| `UniqueFile.SpacesToUnderscoresEmpty` | tests/utils/file.py:55-60 | the name is empty after the replacement iff it was empty before |

## Left out

- The crawler, browser and network (`AsyncWebCrawler`, `arun`, `async with`, `async for`). The streamed page records are an input sequence. Concurrency and the crawl order inside crawl4ai are not modelled.
- The deep-crawl strategy constructors (`configs/deep_crawl.py` in both versions) and the browser and crawler presets. The model returns the strategy's parameters as a `DeepCrawl` value and the preset as an enumeration, and says nothing about what crawl4ai does with them.
- `extract_main_content` calls BeautifulSoup, which is not part of this model.
- Output: the `print` calls, the stderr redirection, the float score formatting, FastMCP registration and `main`.
- The idempotence of `clean_navigation_content`. It does not hold: a cleaned text that starts with a heading on line 0 and has a later heading is cut again on a second pass. Only the collapse step is proved idempotent.
- Url.Split: a simplified `urlparse`, following section 3 of RFC 3986. It does not split `;params` off the last path segment (as `urlparse` does for http and https). It does not lower-case the scheme, strip or delete control characters, or raise `ValueError` on an unbalanced IPv6 bracket. It also does not raise the `ValueError` that `urlsplit`'s netloc check gives for a non-ASCII netloc whose NFKC normalisation contains one of "/", "?", "#", "@" or ":" (such as `https://a\uff0fb/`). For such URLs `extract_domain` and `url_to_filepath` raise, while the model returns a value.
- Paths.Parse: pathlib's special double-slash root (`//x`) is treated like a single slash, and ".." is kept as a name, as pure paths keep it.
- Storage.FileSystem: "inside a directory" means that a path's components extend the directory's components. No ".." is resolved. A URL path with a ".." segment, such as `https://h/../x`, therefore maps by `PathMap.UrlToFilePath` to `out/../x.md`. That file lies under `out` in the model, but on disk it is `x.md`, outside `out`. Paths that name the same file on disk, such as `out/b.md` and `out/a/../b.md`, are distinct keys of the model's file map. For such pages `Core.LastWriteWins` keeps both contents, while on disk the later write replaces the earlier one. Symbolic links are not modelled either.
- PathMap.UrlToFilePath: a ".." segment of the URL path is kept as a component, as pathlib keeps it. The result extends `base_dir` component by component, but it can resolve outside `base_dir` on disk (see the line above).
- Core.LastWriteWins: "the same file" means the same model path. Two paths that name one file on disk through ".." are treated as two files (see the `Storage.FileSystem` line above).
- Storage.FileSystem: `mkdir`, `open` and `write` are modelled without their I/O errors. A page whose URL maps onto an existing directory, or a directory onto an existing file, is not modelled.
- Core.EntryOf: the depth is an optional integer; a metadata value of another type, or missing metadata, is not modelled.
- UniqueFile.FileStore: paths are compared as strings, without the normalisation the operating system applies. As a result, "out/", "out//", "./out" and "a/../out" under the working directory are not identified with "out". With a regular file at that place, `os.makedirs` of such an alias raises and `save_text_to_unique_file` gives `None`, while the model's `MakeDirs`, `CreateUniqueFilename`, `SaveText` and `SaveList` succeed. With an existing file reached through such an alias, `os.path.exists` is true and the source moves on to the next candidate, while the model can return that file's path. Symbolic links are not modelled either.
- UniqueFile.FileStore.MakeDirs: only the final directory is recorded. The refusal is for an existing regular file at exactly that path string (see the line above). Intermediate directories, and other failures, are not modelled.
- UniqueFile.FileStore.SaveText: `open` succeeds in the model. The case where a "/" in `file_name` names a missing subdirectory, leading to `None` in the source, is not modelled.
- UniqueFile.FileStore.SaveList: the `except` branch of `save_list_to_unique_file` cannot fire, because `save_text_to_unique_file` already catches every exception, so it is not modelled. The "/" in `file_name` case left out of `SaveText` is left out here too.
- `save_png_to_unique_file` (base64 decoding and binary writes) is not modelled.
- Integers are unbounded, as ints are in Python; `max_pages` and `max_depth` are only passed on.

## Findings

| source | as written | input that shows it | evidently intended | confidence | as-written member | corrected member |
|---|---|---|---|---|---|---|
| src/crawl4ai_mcp_server/server.py:135-141 | the "Saved to" directory is found by walking up from the first file's directory until a component named `output_dir`, or the top component | `crawl_docs(url, output_dir="docs/api")` with any fetched page: the files go to docs/api, but "Saved to: docs/" is reported; the same happens for an absolute `output_dir`, or when a subdirectory has the same name as `output_dir` | report the output directory the crawl wrote to | not executed | `Server.SavedToAsWrittenMisses` (with `Server.SavedToAsWritten`, `Server.WalkUp`) | `Server.SavedTo` (with `Server.SavedToHoldsEntries` and `Server.DocsReplyByDefault`; `Server.CrawlDocs` keeps the as-written walk-up, `Server.WalkUp`) |
