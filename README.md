# awesome-list-crawler, modelled in Dafny

The awesome-list crawler reads the README of every "awesome" list. Each
bullet that links somewhere is an entry. For each entry it records when the
entry first appeared in the list's git history. The crawler publishes all
entries, grouped by list, as one `data.json` snapshot. Each run merges the
new snapshot into the previous one (the "delta"). A sampling step skips
lists that have not changed for a long time. Three clients read the snapshot:

- a Python backend (`DataService`) keeps the items in memory and serves pages
  of a newest-first day timeline, pages of items and fuzzy-search results;
- the first web client (`web`) turns the snapshot into a day timeline itself
  and pages through it a few days at a time;
- the second web client (`web2`) asks the backend for pages through typed
  URL builders, react-query hooks and an infinite-scroll footer.

The project models all of these in Dafny, one module per source file:

| module | file | models |
|---|---|---|
| `Extractor` | `extractor.dfy` | the markdown-AST walk: `flat`, `find_type_single`, `get_text`, `map_list_item`, `extract` |
| `AwesomeRepo` | `awesome_repo.dfy` | `find_readme_file` and `get_first_date` |
| `CrawlOutput` | `output.dfy` | `generate_json_str` of `crawler/awesome_crawler/output.py` |
| `Delta` | `delta.dfy` | the current `delta`: merge into the old lists, then append new lists |
| `LegacyDelta` | `legacy_delta.dfy` | the older `delta`, which never appends new lists |
| `Sampling` | `sampling.dfy` | last-update time, sampling probability, the filter and the statistics |
| `DataServiceModel` | `data_service.dfy` | the backend service class |
| `WebData` | `web_data.dfy` | `collectItems`, `convertData`, `useData` |
| `Chronological` | `chronological.dfy` | the page parameter, `calculateIncrement`, the days shown and the links |
| `Pagination` | `pagination.dfy` | the prev and next links |
| `Web2Api` | `web2_api.dfy` | `fetchApi` and the endpoint URL builders |
| `Web2Hooks` | `web2_hooks.dfy` | the query keys, requests, enabled flags and `getNextPageParam` |
| `InfiniteScroll` | `infinite_scroll.dfy` | when the footer fetches and what it shows |

Shared support modules:

- `Serialize` (`serialize.dfy`) and `Records` (`records.dfy`) hold the data records.
- `Text` (`text.dfy`) models `strip`, ASCII `lower`, `split("T")[0]`, `join` and decimal numerals.
- `Ordering` (`ordering.dfy`) models a stable sort by key (Python's `sorted`, lodash `orderBy`).
- `Grouping` (`grouping.dfy`) models `itertools.groupby`, lodash `groupBy` and the "day bucketing" both timelines build.
- `Uri` (`uri.dfy`) models `encodeURIComponent`, `decodeURIComponent` and query-string parsing.
- `Wrappers` (`wrappers.dfy`) holds `Option` and `Result`.

Imperative code is modelled as imperative Dafny:

- `DataService` is a class whose methods update `items` and `timeline`. `rawData` is supplied by the caller.
- The in-place `list.sort` calls in `output.py` and `awesome_repo.py` are methods on an `array`. Each is proved equal to the stable `SortBy`.
- Every loop in the source is a method with invariants, proved equal to a specification function:
  - the two `delta` loops;
  - the `flat` work queue;
  - the sampling loops;
  - `_process_data`, `_build_timeline` and `search_items`;
  - `calculateIncrement`.
- The properties are then proved about those functions.

Time is modelled as a whole number:

- `struct_time` and `datetime` are a number of seconds, or of days for the date part of a timestamp.
- `datetime.min` is 0.

Parsing, randomness, the clock and the fuzzy scorers are parameters of the model. Each is a function value the caller supplies:

- `parse` stands for `datetime.fromisoformat`;
- `date` stands for JavaScript's `new Date`;
- `iso` stands for `isoformat`;
- `random` stands for `random.random`;
- `now` stands for the current time;
- `score` and `ratio` stand for fuzzywuzzy;
- `fuse` stands for Fuse.js;
- `fetch` stands for the browser's `fetch`.

## Model

| member | source | states |
|---|---|---|
| Extractor.GetChildren | awesome_crawler/extractor.py:79-83 | a token's children, or none for a leaf; each child is smaller than its parent |
| Extractor.Flat | awesome_crawler/extractor.py:58-66 | the work-queue loop (pop the last token, push its children) yields exactly `FlatOf(ast)` |
| Extractor.FlatStep | awesome_crawler/extractor.py:60-66 | one loop step yields the popped token and leaves the rest of the traversal unchanged |
| Extractor.FlatOfAppend | awesome_crawler/extractor.py:58-66 | the traversal of `a + b` visits all of `b` (popped first) before all of `a` |
| Extractor.FlatOfLast | awesome_crawler/extractor.py:60-66 | the traversal starts with the last token, then its subtree, then the remaining tokens |
| Extractor.FlatYieldsEveryNode | awesome_crawler/extractor.py:58-66 | `flat` yields every node of the forest exactly once: the same multiset as a pre-order walk |
| Extractor.FindTypeSingleFirst | awesome_crawler/extractor.py:69-76 | the result is the first token of the traversal with that type, or none when no token has it |
| Extractor.Texts | awesome_crawler/extractor.py:87 | one text per token that has one; empty exactly when no token has a text |
| Extractor.GetText | awesome_crawler/extractor.py:86-87 | the texts of the traversal joined by single spaces; empty when there is no text |
| Extractor.GetTextParts | awesome_crawler/extractor.py:86-87 | one text gives itself; several give the first, a space, then the rest joined by spaces |
| Extractor.MapListItemCases | awesome_crawler/extractor.py:34-55 | a `KeyError` exactly when the link token has no `link`; nothing when there is no link token or the link starts with `#`; otherwise the entry is the link's text, the link, the whole item's text and no category |
| Extractor.ListItems | awesome_crawler/extractor.py:27-31 | only `list_item` tokens, never more than the traversal holds |
| Extractor.ListItemsAppend | awesome_crawler/extractor.py:31 | filtering distributes over concatenation, so the list items keep the traversal order |
| Extractor.Collect | awesome_crawler/extractor.py:23-24 | fails exactly when some list item fails, with the first failure; otherwise every entry kept came from a present result, and there are no more entries than results |
| Extractor.CollectAppendFirstFails | awesome_crawler/extractor.py:23-24 | on a concatenation, a failure in the first part is the result |
| Extractor.CollectAppendSecondFails | awesome_crawler/extractor.py:23-24 | on a concatenation whose first part succeeds, a failure in the second part is the result |
| Extractor.CollectAppend | awesome_crawler/extractor.py:23-24 | on a concatenation of two successful parts, the entries of the first part followed by those of the second |
| Extractor.CollectKeepsEntries | awesome_crawler/extractor.py:23-24 | a successful collect keeps the entry of every present result |
| Extractor.CollectKeepsOrder | awesome_crawler/extractor.py:23-24 | a successful collect keeps present entries in their order: the entry of result `i` comes before that of result `j` when `i < j` |
| Extractor.MapAllFails | awesome_crawler/extractor.py:23-24 | mapping and collecting the list items fails exactly when some list item fails to map |
| Extractor.Extract | awesome_crawler/extractor.py:18-24 | at most one entry per list item of the AST |
| Extractor.ExtractFails | awesome_crawler/extractor.py:18-24 | `extract` fails exactly when some list item of the tree fails to map |
| Extractor.ExtractKeepsEntries | awesome_crawler/extractor.py:18-24 | a successful `extract` contains the entry of every list item that maps to one, in document order |
| Extractor.ExtractEntries | awesome_crawler/extractor.py:18-55 | no extracted entry links to an in-page anchor, and none has a category |
| Extractor.MapAnchorItem | awesome_crawler/extractor.py:51-52 | a bullet whose link is `#software` yields nothing |
| Extractor.MapLinkItem | awesome_crawler/extractor.py:34-55 | a bullet `[BeEF](http://beefproject.com/) - Manipulate the browser.` yields name `BeEF`, that link, and the item's text in traversal order |
| Extractor.ExtractSkipsAnchor | awesome_crawler/extractor.py:18-24 | a list holding the anchor bullet and the link bullet extracts exactly the one link entry |
| AwesomeRepo.Readmes | awesome_crawler/awesome_repo.py:51 | exactly the paths whose lower-cased text contains `readme`, in order |
| AwesomeRepo.ReadmesEmpty | awesome_crawler/awesome_repo.py:51-52 | no readme candidates exactly when no path contains `readme` |
| AwesomeRepo.FindReadmeFirst | awesome_crawler/awesome_repo.py:48-55 | none exactly when no path is a readme; otherwise the first readme path of the tree |
| AwesomeRepo.UpperCaseReadme | awesome_crawler/awesome_repo.py:51 | the match ignores case: `docs/README.md` is found |
| AwesomeRepo.SortByName | awesome_crawler/awesome_repo.py:59 | sorting the array in place leaves the stable sort of its old contents by entry name |
| AwesomeRepo.FirstDatesOf | awesome_crawler/awesome_repo.py:61-66 | the groupby loop over name-sorted entries yields exactly `FirstDates` |
| AwesomeRepo.GetFirstDate | awesome_crawler/awesome_repo.py:58-66 | the array ends sorted by name, and the yielded entries are `FirstDates` of it |
| AwesomeRepo.FirstDateOfGroup | awesome_crawler/awesome_repo.py:63-66 | the yielded time is the group's earliest time; the yielded entry is one with the group's latest time |
| AwesomeRepo.FirstDatesAt | awesome_crawler/awesome_repo.py:61-66 | one yielded entry per run of equal names, in run order |
| AwesomeRepo.FirstDatesAscending | awesome_crawler/awesome_repo.py:58-66 | the yielded names are strictly ascending, so each name is yielded once |
| AwesomeRepo.FirstDatesCover | awesome_crawler/awesome_repo.py:58-66 | every yielded name occurs in the input, and every input name is yielded |
| AwesomeRepo.FirstDatesEarliest | awesome_crawler/awesome_repo.py:58-66 | each name is dated by its earliest time over the whole input |
| AwesomeRepo.FirstDatesLatestItem | awesome_crawler/awesome_repo.py:58-66 | each name carries the entry of one of its latest sightings |
| CrawlOutput.ToOutputItems | crawler/awesome_crawler/output.py:22-27 | one output item per input item |
| CrawlOutput.ListsOf | crawler/awesome_crawler/output.py:16-28 | one output list per group |
| CrawlOutput.SortByListName | crawler/awesome_crawler/output.py:12 | sorting the array in place leaves the stable sort of its old contents by list name |
| CrawlOutput.BuildLists | crawler/awesome_crawler/output.py:16-28 | the groupby loop builds exactly `ListsOf` the groups |
| CrawlOutput.GenerateOutput | crawler/awesome_crawler/output.py:11-29 | the items end sorted by list name, and the output is the lists built from them |
| CrawlOutput.GroupsByList | crawler/awesome_crawler/output.py:12-18 | the groups partition the items by list name, with names strictly increasing |
| CrawlOutput.ListAt | crawler/awesome_crawler/output.py:16-28 | each output list is built from exactly the items of its list name |
| CrawlOutput.OutputListsContents | crawler/awesome_crawler/output.py:16-28 | each list takes its source and description from its first item's list; its items are all items of that list, sorted by item name |
| CrawlOutput.OutputListsAscending | crawler/awesome_crawler/output.py:12-18 | list names are strictly ascending, so no list name repeats |
| CrawlOutput.OutputListsCover | crawler/awesome_crawler/output.py:16-28 | every output list names a list of the input, and every input item's list is present |
| CrawlOutput.OutputItemsSorted | crawler/awesome_crawler/output.py:20 | inside each list the items are sorted by name |
| CrawlOutput.ItemCountOfGroups | crawler/awesome_crawler/output.py:22-28 | the lists hold as many items as the groups |
| CrawlOutput.OutputItemCount | crawler/awesome_crawler/output.py:11-29 | the output holds exactly as many items as the input: none lost, none duplicated |
| CrawlOutput.OutputListsEmpty | crawler/awesome_crawler/output.py:11-29 | no items give no lists |
| Delta.FindList | crawler/awesome_crawler/delta.py:26-28 | the first list with that name; none exactly when no list has it |
| Delta.FindItem | crawler/awesome_crawler/delta.py:26-28 | the same lookup over items, as line 61 uses it |
| Delta.MatchedNamesMember | crawler/awesome_crawler/delta.py:60-64 | `f` holds exactly the old item names that the new list also has |
| Delta.MatchedNamesOf | crawler/awesome_crawler/delta.py:60-64 | the inner loop builds exactly `MatchedNames` |
| Delta.Fresh | crawler/awesome_crawler/delta.py:66 | `to_append` is exactly the new items whose names are not in `f`, in order |
| Delta.AppendedAreNewNames | crawler/awesome_crawler/delta.py:60-66 | filtering by the matched names equals filtering by all old item names |
| Delta.AppendedNamesAreNew | crawler/awesome_crawler/delta.py:66 | every appended item comes from the new list, and no old item has its name |
| Delta.MergedOld | crawler/awesome_crawler/delta.py:52-79 | one merged list per old list, in the old order |
| Delta.MergeOldLists | crawler/awesome_crawler/delta.py:52-79 | the first loop builds exactly `MergedOld` |
| Delta.AddNew | crawler/awesome_crawler/delta.py:83-90 | the lists already built stay in front, unchanged |
| Delta.AddNewLists | crawler/awesome_crawler/delta.py:83-90 | the second loop builds exactly `AddNew` |
| Delta.Delta | crawler/awesome_crawler/delta.py:31-93 | the whole function computes `DeltaOf(latest, prev)` |
| Delta.FindListNone | crawler/awesome_crawler/delta.py:26-28 | no list found exactly when the name is missing from the lists' names |
| Delta.AddNewAppendsFresh | crawler/awesome_crawler/delta.py:83-90 | the second loop appends exactly `FreshLists`: each new list whose name is not yet present and has not appeared earlier in the new data |
| Delta.FreshListsNames | crawler/awesome_crawler/delta.py:83-90 | a name is appended exactly when the new data has it and the old data does not |
| Delta.FreshListsAreFirst | crawler/awesome_crawler/delta.py:83-90 | an appended list is the first list of its name in the new data |
| Delta.FreshListsEmpty | crawler/awesome_crawler/delta.py:83-90 | nothing is appended when every new name is already present |
| Delta.MergeKeepsOld | crawler/awesome_crawler/delta.py:52-79 | each old list keeps its place, name, source and description. It is unchanged when the new data lacks it. Otherwise its old items stay first, followed by the new items with unseen names |
| Delta.MergeAppendsNewLists | crawler/awesome_crawler/delta.py:31-93 | the lists after the old ones are exactly the fresh new lists |
| Delta.NewListNamesCovered | crawler/awesome_crawler/delta.py:83-90 | every list name only the new data has appears among the appended lists |
| Delta.MergedCoversNew | crawler/awesome_crawler/delta.py:66-78 | after a merge, every item name of the new list is present |
| Delta.MergeOldTwice | crawler/awesome_crawler/delta.py:52-79 | merging a list twice with the same new data equals merging once |
| Delta.DeltaListsStable | crawler/awesome_crawler/delta.py:31-93 | merging any result list with the same new data leaves it unchanged |
| Delta.DeltaCoversNewNames | crawler/awesome_crawler/delta.py:31-93 | every list name of the new data is in the result |
| Delta.DeltaIdempotent | crawler/awesome_crawler/delta.py:31-93 | running the delta again with the same new data changes nothing |
| Delta.DeltaOfEmpty | test/test_delta.py:33-36 | empty new data leaves the old output unchanged |
| Delta.FreshFourthItem | test/test_delta.py:39-42 | with items 0-2 old and 0-3 new, only item 3 is appended |
| Delta.DeltaAddsFourthItem | test/test_delta.py:39-42 | the merged list then has four items |
| Delta.NewListAppended | crawler/awesome_crawler/delta.py:83-90 | one old list and one new list with another name give both, old first |
| Delta.DeltaAddsNewList | test/test_delta.py:45-48 | the test's new list is appended, giving two lists |
| LegacyDelta.LegacyDelta | awesome_crawler/delta.py:19-42 | the older function's loop computes `LegacyDeltaOf` |
| LegacyDelta.LegacyKeepsOld | awesome_crawler/delta.py:25-40 | the result is exactly the old lists, each merged as in the current version |
| LegacyDelta.LegacyDeltaOfEmpty | test/test_delta.py:33-36 | empty new data leaves the old output unchanged |
| LegacyDelta.VersionsAgreeOnOldLists | awesome_crawler/delta.py:19-42 | the two versions agree on the old lists; the current one only appends after them |
| LegacyDelta.LegacyDropsNewList | awesome_crawler/delta.py:25-42 | on the input of `test_new_lists_should_be_added` the result has one list, not two |
| Sampling.LastUpdate | crawler/awesome_crawler/sampling.py:12-26 | no parsable time is later; the result is one of the parsed times, or the minimum (0) when none parses |
| Sampling.GetLastUpdateTime | crawler/awesome_crawler/sampling.py:12-26 | the loop computes `LastUpdate`; no items give the minimum |
| Sampling.LastUpdateNoneParse | crawler/awesome_crawler/sampling.py:17-26 | when no time parses, the result is the minimum |
| Sampling.ProbabilityPercent | crawler/awesome_crawler/sampling.py:29-50 | 90 up to 30 days, 50 up to 365, 20 up to 730, 5 beyond |
| Sampling.ProbabilityMonotone | crawler/awesome_crawler/sampling.py:29-50 | a more recent update never gets a lower probability |
| Sampling.Lookup | crawler/awesome_crawler/sampling.py:60 | none exactly when no list has the name; otherwise the last list with that name, as the dict comprehension keeps it |
| Sampling.Draws | crawler/awesome_crawler/sampling.py:65-82 | at most one random draw per repository |
| Sampling.FilterRepositories | crawler/awesome_crawler/sampling.py:53-87 | without snapshot lists, every repository. Otherwise a `ZeroDivisionError` for an empty repository list, or the sampled repositories |
| Sampling.KeptIsSubsequence | crawler/awesome_crawler/sampling.py:62-87 | the kept repositories are a subsequence of the input |
| Sampling.KeptUnknown | crawler/awesome_crawler/sampling.py:68-72 | a repository the snapshot does not know is always kept |
| Sampling.KeptFromInput | crawler/awesome_crawler/sampling.py:62-87 | only input repositories are kept, never more than the input |
| Sampling.Bump | crawler/awesome_crawler/sampling.py:110-121 | one repository with data adds exactly one to one age band |
| Sampling.BumpMatchesProbability | crawler/awesome_crawler/sampling.py:114-121 | the band counted is the band of the sampling probability |
| Sampling.CountTotal | crawler/awesome_crawler/sampling.py:104-121 | the five counters add up to the number of repositories |
| Sampling.CountNoData | crawler/awesome_crawler/sampling.py:104-108 | `no_data` counts exactly the repositories without a random draw, i.e. those missing from the snapshot |
| Sampling.CountStats | crawler/awesome_crawler/sampling.py:104-121 | the counting loop computes `Count` |
| Sampling.LogSamplingStatistics | crawler/awesome_crawler/sampling.py:90-129 | nothing without snapshot lists. Otherwise a `ZeroDivisionError` for an empty repository list, or the counts |
| DataServiceModel.DataService.constructor | backend/data_service.py:17-24 | a new service has no snapshot, no items and an empty timeline |
| DataServiceModel.ToAppItem | backend/data_service.py:62-78 | an item exists exactly when the date part parses. It holds the raw item's name, description and source, its list's name and source, and the parsed date |
| DataServiceModel.ListItemsOrigin | backend/data_service.py:61-78 | every converted item of a list comes from a raw item of that list with the same fields and a parsable date |
| DataServiceModel.ProcessedItemsOrigin | backend/data_service.py:60-78 | at most one item per raw item, each from a raw item of some list |
| DataServiceModel.ListItemsAllParse | backend/data_service.py:61-78 | when every date parses, no item of the list is skipped |
| DataServiceModel.ProcessedItemsAllParse | backend/data_service.py:60-78 | when every date parses, there are as many items as raw items |
| DataServiceModel.ConvertLists | backend/data_service.py:59-80 | the nested loops build exactly the in-order conversion, skipping unparsable items |
| DataServiceModel.DataService.ProcessData | backend/data_service.py:54-81 | without a snapshot nothing changes. Otherwise the items become the snapshot's conversion and the timeline is rebuilt |
| DataServiceModel.DataService.BuildTimeline | backend/data_service.py:83-103 | the timeline buckets the items by day, newest first; it is empty exactly when there are no items |
| DataServiceModel.TimelineIsBucketing | backend/data_service.py:89-103 | sort by date, group the runs, sort the days newest first: together they bucket the items |
| DataServiceModel.TimelineEmpty | backend/data_service.py:85-87 | the timeline is empty exactly when there are no items |
| Grouping.BucketsPermuteItems | backend/data_service.py:93-100 | the days together hold every item exactly once |
| Grouping.BucketingUnique | backend/data_service.py:83-103 | a sequence has at most one bucketing, so two ways of building it agree |
| DataServiceModel.PageSlice | backend/data_service.py:107-110 | the page is the slice starting at `(page - 1) * size`, at most `size` long, and empty past the end |
| DataServiceModel.TotalPages | backend/data_service.py:111 | the ceiling of `n / size`: the fewest pages of `size` that hold `n` |
| DataServiceModel.PageBeyondTotal | backend/data_service.py:105-113 | a page is empty exactly when its number exceeds the page count |
| DataServiceModel.PagesCover | backend/data_service.py:105-113 | element `k` appears on page `k / size + 1`, at position `k % size` |
| DataServiceModel.DataService.GetTimelinePage | backend/data_service.py:105-113 | exactly the `PageSlice` of the timeline: `min(size, remaining)` consecutive days from `(page - 1) * size`, none past the end, and the page count. The page is empty exactly beyond the last page |
| DataServiceModel.NewestFirst | backend/data_service.py:118 | a permutation of the items |
| DataServiceModel.NewestFirstOrdered | backend/data_service.py:118 | the permutation's dates never increase |
| DataServiceModel.PageOrdered | backend/data_service.py:120-123 | a page of a newest-first sequence is newest first |
| DataServiceModel.DataService.GetItemsPage | backend/data_service.py:115-126 | a page of the newest-first items, itself newest first, and the page count |
| Text.StripEmpty | backend/data_service.py:130 | a query strips to nothing exactly when it is all whitespace of the runtime (Python's set includes U+001C to U+001F) |
| Text.SeparatorsDiffer | backend/data_service.py:130 | Python's `strip` empties a one-character string holding an information separator (U+001C to U+001F), which JavaScript's `trim` keeps whole; every JavaScript space is a Python space |
| Text.StripSlice | backend/data_service.py:133 | `strip` keeps the middle slice between leading and trailing whitespace |
| Text.Lower | backend/data_service.py:133 | each upper-case ASCII letter becomes lower case; other characters are unchanged |
| DataServiceModel.Matches | backend/data_service.py:143-155 | the hits are exactly the items scoring above 60, each paired with its score |
| DataServiceModel.RankLtStrictTotal | backend/data_service.py:158 | the `(-score, -time)` key is a strict total order |
| DataServiceModel.RankedMembers | backend/data_service.py:143-159 | the results are exactly the items that score above 60 |
| DataServiceModel.RankedOrder | backend/data_service.py:158-159 | results are by score, highest first; equal scores are newest first |
| DataServiceModel.DataService.SearchItems | backend/data_service.py:128-168 | a blank query gives the items page. Otherwise, a page of the ranked hits for the stripped, lower-cased query, and their page count |
| DataServiceModel.MaxWeightedScore | backend/data_service.py:146-151 | the score as written never exceeds 40, and reaches 40 only when the name ratio is 100 |
| DataServiceModel.AsWrittenNoMatches | backend/data_service.py:146-155 | under the score as written, no item ever scores above 60 |
| DataServiceModel.AsWrittenSearchEmpty | backend/data_service.py:128-168 | so every non-blank search returns an empty page and zero pages |
| DataServiceModel.WeightedSumScore | backend/data_service.py:146-151 | the weighted sum of the four ratios lies between 0 and 100, the threshold's scale |
| DataServiceModel.CorrectedSearchFinds | backend/data_service.py:143-159 | with the weighted sum, an item is found exactly when its score exceeds 60. An item whose four fields each match above 60 is found |
| DataServiceModel.DataService.IsDataLoaded | backend/data_service.py:206-208 | loaded exactly when there is a snapshot with at least one item; in a consistent service, exactly when the timeline is not empty |
| Ordering.SortBy | crawler/awesome_crawler/output.py:12 | `sorted` by a key keeps the length and the multiset of elements |
| Ordering.SortBySorted | crawler/awesome_crawler/output.py:12 | the result is ordered by the key |
| Ordering.SortByKeyFilter | crawler/awesome_crawler/output.py:12 | the sort is stable: elements with equal keys keep their order |
| Ordering.StrLtStrictTotal | crawler/awesome_crawler/output.py:12 | string comparison is a strict total order |
| Grouping.GroupRuns | crawler/awesome_crawler/output.py:16-18 | `groupby` yields non-empty runs of one key that flatten back to the input; neighbouring runs differ in key |
| Grouping.SortedRuns | crawler/awesome_crawler/output.py:12-18 | grouping sorted items partitions them by key, with keys strictly increasing |
| Grouping.GroupFirstFilters | web/src/data/data.ts:65-67 | each lodash group holds exactly the items of its key, in order |
| Grouping.GroupFirstDistinct | web/src/data/data.ts:65-67 | no two groups share a key |
| Grouping.GroupFirstCovers | web/src/data/data.ts:65-67 | every item's key has a group |
| Grouping.SortedBucketing | web/src/data/data.ts:69-78 | ordering distinct-date groups newest first gives the bucketing |
| WebData.CollectList | web/src/data/data.ts:46-53 | one app item per raw item of the list |
| WebData.CollectListAt | web/src/data/data.ts:46-53 | item `k` of a list becomes app item `k`, tagged with its list and dated by its date part |
| WebData.CollectItemsShape | web/src/data/data.ts:43-57 | as many app items as raw items; raw item `k` of list `i` sits at its place in list order |
| WebData.GroupFirstIsGrouping | web/src/data/data.ts:65-67 | the lodash groups partition the items by date, with no date repeated |
| WebData.BucketizeIsBucketing | web/src/data/data.ts:65-78 | the web timeline buckets the items by day, newest first |
| WebData.ConvertDataBuckets | web/src/data/data.ts:59-79 | no data gives an empty timeline. Otherwise the timeline buckets the collected items and holds each exactly once |
| WebData.CollectItemsAgree | web/src/data/data.ts:43-57 | the web client collects the same items the backend converts, once every date parses |
| WebData.ConvertDataAgreesWithBackend | web/src/data/data.ts:59-79 | the web timeline equals the backend's timeline for the same snapshot |
| WebData.UseDataBranches | web/src/data/data.ts:83-131 | no data gives no days, and a blank search the unfiltered timeline. Otherwise the days bucket the search hits |
| WebData.SampleDays | web/src/data/data.test.ts:4-32 | the test's three items fall on two dates |
| WebData.SampleTimeline | web/src/data/data.test.ts:33-45 | the test's timeline has two days, the later date first |
| Chronological.DigitRun | web/src/pages/Chronological.tsx:24 | the longest leading run of digits |
| Chronological.ParseIntToString | web/src/pages/Chronological.tsx:24 | `parseInt` reads back any integer written in decimal |
| Chronological.PageStartOf | web/src/pages/Chronological.tsx:20-24 | a `page` parameter written from a day index reads back as that index |
| Chronological.ParseZero | web/src/pages/Chronological.tsx:24 | a missing page reads as 0 |
| Chronological.CountedDays | web/src/pages/Chronological.tsx:33-46 | the loop counts at least one day when any remain, and never more than remain |
| Chronological.CalculateIncrement | web/src/pages/Chronological.tsx:27-50 | the loop with its two breaks computes `Increment` |
| Chronological.CountedDaysStop | web/src/pages/Chronological.tsx:33-46 | the loop continues while the total stays under 100 items, and stops at the end or once it reaches 100 |
| Chronological.IncrementInRange | web/src/pages/Chronological.tsx:27-50 | inside the timeline, the increment is between `min(2, remaining)` and `remaining`. Beyond 2 days, all but the last day hold fewer than 100 items, and it stops at 100 or at the end |
| Chronological.IncrementEmpty | web/src/pages/Chronological.tsx:28 | an empty timeline gives the default of 2 |
| Chronological.IncrementOutside | web/src/pages/Chronological.tsx:33-49 | a negative start reads `undefined` and fails; a start past the end gives 0 |
| Chronological.IncrementBounds | web/src/pages/Chronological.tsx:27-50 | inside the timeline a page shows at least one day and none past the end |
| Chronological.SliceIndex | web/src/pages/Chronological.tsx:72-73 | a `slice` index lands between 0 and the length |
| Chronological.PageAt | web/src/pages/Chronological.tsx:52-111 | a page inside the timeline shows the increment's days and a next link computed from the increment. As written, its prev link steps back a whole increment (`PrevRange`, possibly below 0); the corrected page clamps it at 0 |
| Chronological.RenderPageAt | web/src/pages/Chronological.tsx:52-111 | at a day index inside the timeline, the increment succeeds and the page shows its days, the given prev link and the next link from the increment |
| Chronological.PageShown | web/src/pages/Chronological.tsx:68-111 | the days shown are the consecutive days from the start. Prev appears exactly when the start is not 0, next exactly when days remain. |
| Chronological.CorrectedPageShown | web/src/pages/Chronological.tsx:68-111 | the corrected page shows the same days and next link as the page as written, and prev exactly when the start is not 0 |
| Chronological.LinksStayInside | web/src/pages/Chronological.tsx:97-109 | on the corrected page, with prev clamped at 0, both links lead to pages inside the timeline that render |
| Chronological.PrevLeavesTimeline | web/src/components/Pagination.tsx:23-29 | day sizes 50, 50, 1, 1, 1, 1, 1: page 0 links next to day 2, page 2 shows 5 days, and its prev link goes to -3, where the increment fails |
| Chronological.PrevLinkCrashes | web/src/pages/Chronological.tsx:52-111 | on that timeline the page as written at day 2 links prev to -3, and the page at -3 crashes. The corrected page links prev to 0, and that page renders |
| Chronological.Get | web/src/pages/Chronological.tsx:20-21 | `URLSearchParams.get` finds a value exactly when some parameter has that key, and that value is the first such parameter's |
| Chronological.PageChangeKeepsSearch | web/src/pages/Chronological.tsx:54-59 | changing the page moves to that page and keeps the search |
| Chronological.SearchChangeResetsPage | web/src/pages/Chronological.tsx:61-66 | changing the search returns to page 0 with the new term |
| Pagination.RangeFrom | web/src/components/Pagination.tsx:16-18 | a click reports a range of one increment from the new page |
| Pagination.PrevShown | web/src/components/Pagination.tsx:23-29 | prev appears exactly when the current page is not 0, and goes one increment back |
| Pagination.NextShown | web/src/components/Pagination.tsx:31-41 | next appears exactly when a page remains after this one, and goes one increment on |
| Pagination.NextThenPrev | web/src/components/Pagination.tsx:23-41 | with a fixed increment, prev after next returns to the same range |
| Pagination.ClampedPrevInRange | web/src/components/Pagination.tsx:23-29 | the clamped prev appears when the original does, lands between 0 and the current page, and equals the original when that stays at or above 0 |
| Web2Api.ApiBaseUrl | web2/src/lib/api.ts:3 | the configured URL when it is set and not empty, otherwise `http://localhost:8000` |
| Web2Api.FetchApiOutcome | web2/src/lib/api.ts:12-20 | success exactly when the response is ok, giving its body. Otherwise an `ApiError` with the status and the message `API Error: ` followed by the status text |
| Web2Api.TimelineParams | web2/src/lib/api.ts:27-28 | the timeline URL parses back to its path, `page` (default 1) and `size` (default 10) |
| Web2Api.ItemsParams | web2/src/lib/api.ts:31-32 | the items URL parses back to `page` (default 1) and `size` (default 20) |
| Web2Api.SearchParams | web2/src/lib/api.ts:35-36 | the search URL parses back to the encoded query, page, size and sort (default `date`). The query decodes back to itself |
| Web2Api.SourcesParams | web2/src/lib/api.ts:42-43 | the sources URL parses back to `page` and `size` |
| Web2Api.SearchSourcesParams | web2/src/lib/api.ts:46-47 | the source-search URL parses back to query, page, size and sort; the query decodes back to itself |
| Web2Api.SourceItemsParams | web2/src/lib/api.ts:50-51 | the source name is a single path segment that decodes back to the name; the parameters are page, size and `sort=time` |
| Uri.EncodeDecode | web2/src/lib/api.ts:36 | `decodeURIComponent` inverts `encodeURIComponent` on every string |
| Uri.EncodedSafe | web2/src/lib/api.ts:36 | an encoded value holds no `&`, `=`, `?`, `/` or `#`, so it cannot break the URL |
| Uri.Utf8RoundTrip | web2/src/lib/api.ts:36 | UTF-8 decoding inverts UTF-8 encoding |
| Uri.EncodeUnreserved | web2/src/lib/api.ts:36 | unreserved characters are left as they are |
| Uri.UrlRoundTrip | web2/src/lib/api.ts:28 | a path and safe parameters written as a URL parse back to themselves |
| Uri.SplitJoin | web2/src/lib/api.ts:51 | splitting a joined path at `/` gives back its segments |
| Web2Hooks.NextPageParamIff | web2/src/hooks/api.ts:17-18 | a next page exists exactly when the last page is before the total, and it is the following page |
| Web2Hooks.PagesVisited | web2/src/hooks/api.ts:13-39 | each infinite hook (timeline, items, search), started at its `initialPageParam` and following next pages, fetches 1 to the total in order, each once; page 1 only when there are no pages |
| Web2Hooks.InfiniteTimelineFirstRequest | web2/src/hooks/api.ts:13-20 | the first timeline request asks for page 1 at the given size (default 10) |
| Web2Hooks.InfiniteItemsFirstRequest | web2/src/hooks/api.ts:23-30 | the first items request asks for page 1 at the given size (default 20) |
| Web2Hooks.SearchEnabledIff | web2/src/hooks/api.ts:40-70 | both search hooks are enabled exactly when the query is not blank |
| Web2Hooks.InfiniteSearchRequest | web2/src/hooks/api.ts:33-41 | each page's request carries the encoded query, that page, the size and `sort=date`; the query decodes back |
| Web2Hooks.SearchKeyDeterminesRequest | web2/src/hooks/api.ts:35-36 | equal cache keys mean the same query, size and requests, so caching by key is sound |
| Web2Hooks.KeysDistinct | web2/src/hooks/api.ts:15-68 | infinite and single-page queries never share a cache key |
| Web2Hooks.OnlyLuckyIsManual | web2/src/hooks/api.ts:5-49 | lucky waits to be triggered; health, the timeline and the item lists run at once. Lucky and health each parse to their own endpoint with no parameters, under distinct cache keys |
| InfiniteScroll.FooterShows | web2/src/components/InfiniteScroll.tsx:31-43 | the spinner shows exactly while fetching, and the end marker exactly when no page remains. Neither state fetches |
| InfiniteScroll.EndMarkerAtLastPage | web2/src/components/InfiniteScroll.tsx:25-43 | fed by the hooks, the end marker shows exactly at the last page. A fetch starts exactly when the sentinel is in view, no fetch is in flight and the newest page is before the last, so never a second request while one is pending; it asks for the following page |

## Left out

- CrawlOutput.GenerateOutput: models `crawler/awesome_crawler/output.py`. The first package's copy (`awesome_crawler/output.py:39-57`) groups and sorts the same way. But its times are `time.struct_time` values: `awesome_repo.py:21,45` builds them with `time.gmtime`, and `process.py:29` passes them on unchanged. `struct_time` has no `isoformat`, so `awesome_crawler/output.py:52` raises `AttributeError` on any non-empty input. The model's total `iso` parameter does not capture that crash.
- The mistune markdown parser (`extract`'s first two lines) is not modelled. `Extract` starts from the AST, a tree of `Token`s.
- The keys a token lacks (`type`, `children`, `text`, `link`) are fields. Every token has a type, so the `"type" in token` test always passes.
- Extractor.Flat: a token's children are always a sequence (`Node`) or absent (`Leaf`). The case where `flat` (`awesome_crawler/extractor.py:63`) finds a `children` value that is not a list and skips it cannot be represented.
- Git: `clone`, `extract_all_commits` and `process_awesome_repo` clone repositories and walk commits, so they are not modelled. `FindReadmeFile` takes the tree's paths.
- S3 is not modelled: `get_last`, `load_data_from_s3`, `write_to_s3` and `generate_json`. The previous snapshot and the backend's snapshot are parameters.
- GitHub and fetch calls are not modelled: `find_awesome_repos.py` and the web clients' `fetch`. The response is a parameter of `FetchApi`.
- Sampling.FilterRepositories: `random.random()` is the parameter `random`, indexed by draw number. The sampled set is stated for a given sequence of draws, not as a probability.
- Sampling.ProbabilityPercent: the probabilities are whole percentages (90, 50, 20, 5), not floats.
- Sampling.LogSamplingStatistics: returns the counts instead of writing log lines, and does not model the formatting of the percentages.
- Dates and times are not modelled:
  - `datetime.fromisoformat`, `new Date`, `isoformat`, `datetime.now` and `time.gmtime` are parameters;
  - `datetime.min` is 0, and the sampling clock is a number of seconds;
  - the sampling time difference is not modelled as a `timedelta`.
- DataServiceModel.DataService.SearchItems: the fuzzywuzzy scorer is the parameter `score`. The as-written and corrected scores build on a `ratio` parameter standing for `partial_ratio`.
- WebData.UseDataBranches: Fuse.js is the parameter `fuse`. SWR loading and error flags and `useMemo` caching are not modelled.
- `get_random_list`, `get_stats`, `useRandomData`, `Lucky.tsx` and the lucky endpoint's server side are not part of this model. They draw one random list, or report counts and the load time.
- `DataService.last_updated` and `load_data_from_s3`'s error handling are not part of this model.
- DataServiceModel.PageSlice: requires `page >= 1` and `size >= 1`, the bounds `backend/main.py` enforces on its query parameters. Python's negative-index slicing for page 0 or below is not modelled.
- Text.Lower and Text.Strip work on ASCII: Python's and JavaScript's Unicode case mapping and whitespace classes beyond ASCII are not modelled. Within ASCII, `Strip` follows each runtime's set: Python's `str.strip()` also removes U+001C to U+001F.
- Chronological.ParseInt: reads base-10 digits after optional whitespace and a sign. Hexadecimal prefixes, `Infinity` and numbers beyond the safe-integer range are not modelled.
- Chronological.Page: a non-numeric `page` gives `NaN`, which renders no days and no links. The model writes that outcome directly and does not model `NaN` arithmetic.
- Uri.DecodeURIComponent: rejects any malformed escape and any non-shortest or surrogate UTF-8. Only the round trip on well-formed output is stated.
- Uri.EncodeURIComponent: encodes each `char` as a Unicode scalar value. JavaScript strings are UTF-16, and a lone surrogate makes `encodeURIComponent` throw `URIError`. That error path is not modelled.
- react-query is not modelled. `Web2Hooks` models the key, the enabled flag, the initial page, the requests and `getNextPageParam`. Caching, retries and `refetchInterval` (30 seconds for health) are not modelled.
- `URLSearchParams.toString` escaping and `history.push` are not part of this model. The parameters a link pushes are modelled as a list of pairs.
- The presentation components are not part of this model: `DayGroup`, `RepositoryItem`, `Navigation`, the `web2` pages, `Loading` and `useDebounce`. Neither are the backend routes in `backend/main.py`.
- `test_awesome_crawler.py` extracts 20 entries from a README file that is not part of this model. A two-bullet list stands in for it (`Extractor.ExtractSkipsAnchor`).
- `Delta.Delta`: the source reassigns `old_list.items` in place, on objects it then returns. The model builds new list values. Aliasing between the old snapshot and the result is not captured.
- `AwesomeRepo.GetFirstDate` returns the whole sequence of yielded entries, not a lazy generator.

## Findings

| source | as written | input that shows it | evidently intended | confidence | as-written member | corrected member |
|---|---|---|---|---|---|---|
| awesome_crawler/delta.py:25-42 | only the old lists are returned; a list that only the new data has is dropped | old output with `LIST1` (three items), new output with only `LIST2`: the result has one list, where `test/test_delta.py:45-48` expects two | append the new-only lists after the merged old ones, as `crawler/awesome_crawler/delta.py:83-90` does | high; not executed | LegacyDelta.LegacyDropsNewList | Delta.DeltaAddsNewList |
| web/src/components/Pagination.tsx:23-29 | "prev" goes back by the current page's increment, which `calculateIncrement` computes for the days ahead, not the days behind | day sizes 50, 50, 1, 1, 1, 1, 1: page 0 shows 2 days and links to 2; page 2 shows 5 days, and its prev link goes to -3, where `timeline[-3].items` throws | a prev link that never goes before day 0 (clamped to 0) | high; not executed | Chronological.PrevLinkCrashes | Chronological.LinksStayInside |
| backend/data_service.py:146-155 | the score is the largest weighted ratio. Every weight is at most 0.4 and a ratio at most 100, so no score exceeds 40, and the `> 60` test never passes | any non-blank query, even one equal to an item's name (name ratio 100, score 40): the search returns no items and zero pages | a score on the threshold's 0-100 scale, such as the weighted sum (the weights add up to 1) | medium (the intended scale is inferred); not executed | DataServiceModel.AsWrittenSearchEmpty | DataServiceModel.CorrectedSearchFinds |
