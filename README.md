# ZenoTime in Dafny

ZenoTime is a small command-line world clock (`zenotime.py`). It has four modes:

- `-t ZONE` shows the current time in one timezone.
- `-s QUERY` searches the timezone identifiers for a case-insensitive substring.
- `-l` lists every identifier.
- With no option, it prints a "World Time Overview": a curated list of about sixty identifiers, grouped under six region headers.

This project models the logic beneath the printing, and proves what that logic does:

- `wrappers.dfy`: the `Option` and `Result` types.
- `pystr.dfy` (module `PyStr`): the parts of Python's `str` the program relies on.
  - `lower()`.
  - The substring test `p in s`, defined as a left-to-right scan and proved equal to "occurs at some position".
  - `split()[0]`.
- `pysorted.dfy` (module `PySorted`):
  - Python's ordering of strings, proved to be a total order.
  - `sorted()`, proved to return the unique sorted permutation of its input.
- `zeno.dfy` (module `Zeno`): the `ZenoTime` object.
  - It holds the sorted identifier list built by its constructor.
  - `search_timezone` filters that list.
  - The success/error branch of `display_time`.
- `regions.dfy` (module `Regions`): the body of `list_all_times`.
  - The curated list.
  - The six-key `regions` dict, as a map from a `Region` datatype to lists of identifiers.
  - The classification `next(r for r in regions.keys() if r.split()[0] in tz)`.
  - The loop that appends each identifier to its region's bucket (the method `GroupByRegion`).
  - The loop that emits every non-empty region in declaration order with its identifiers sorted (the method `Emit`).
- `cli.dfy` (module `Cli`): `main` after argument parsing.
  - The four-way priority dispatch, which follows Python truthiness.
  - What each mode reports.

The timezone database and the clock are parameters:

- `database` stands for the identifiers `pytz.all_timezones` lists.
- `now` stands for `get_current_time`: a partial function from identifier to a resolved time of an unspecified type `T`, or `None` when the database does not know the identifier.

The code tests whether the first word of the region's name occurs anywhere in the identifier, case-sensitively. The model follows the code.

The first words are "North", "South", "Europe", "Asia", "Oceania" and "Africa". None of them occurs in any curated "America/…", "Australia/…" or "Pacific/…" entry: 23 of the 61 curated entries (`Regions.AmericasAndPacificUnclassified`). The model proves the consequence: the default mode stops with `StopIteration` at the first curated entry, `America/New_York`. See "## Findings".

## Model

| member | source | states |
|---|---|---|
| PyStr.Lower | zenotime.py:22 | `lower()` keeps the length and lower-cases each character in place |
| PyStr.LowerIdempotent | zenotime.py:22 | lower-casing an already lower-cased string changes nothing |
| PyStr.Contains | zenotime.py:23 | definition of `p in s` as a left-to-right scan; specified by ContainsIffOccurs |
| PyStr.ScanFindsOccurrence | zenotime.py:23 | the scan from a partial match succeeds exactly when the pattern occurs at or after the candidate position |
| PyStr.ContainsIffOccurs | zenotime.py:23 | `p in s` holds exactly when `s[j..j+len(p)] == p` for some `j` |
| PyStr.ContainsEmpty | zenotime.py:22-23 | the empty string is in every string |
| PyStr.MissingCharRulesOut | zenotime.py:132 | a string holding a character that `s` lacks is not in `s` |
| PyStr.OccurrenceHoldsPair | zenotime.py:132 | an occurrence of `p` puts each pair of adjacent characters of `p` side by side in `s` |
| PyStr.MissingPairRulesOut | zenotime.py:132 | a string holding two adjacent characters that `s` never holds side by side is not in `s` |
| PyStr.LoweredWindow | zenotime.py:23 | a window of `s` that lower-cases to `p` puts `p` in `s.lower()` |
| PyStr.LeadingWord | zenotime.py:132 | the maximal run of non-whitespace at the front: a prefix, free of whitespace, followed by whitespace or the end |
| PyStr.FirstWord | zenotime.py:132 | `split()[0]` is absent exactly when the string is all whitespace; otherwise a non-empty word without whitespace |
| PyStr.FirstWordPosition | zenotime.py:132 | the first word sits after whitespace only and is followed by whitespace or the end |
| PyStr.LeadingWordIs | zenotime.py:132 | a string starting with `n` non-space characters and then a space or its end has those characters as its first word |
| PySorted.LeReflexive | zenotime.py:10 | string order is reflexive |
| PySorted.LeTotal | zenotime.py:10 | any two strings are comparable |
| PySorted.LeTransitive | zenotime.py:10 | string order is transitive |
| PySorted.LeAntisymmetric | zenotime.py:10 | strings ordered both ways are equal |
| PySorted.Le | zenotime.py:10 | definition of Python's `<=` on strings (code points left to right, a prefix first); specified by LeReflexive, LeTotal, LeTransitive and LeAntisymmetric |
| PySorted.InsertSorted | zenotime.py:139 | inserting into a sorted list keeps it sorted and adds exactly that element |
| PySorted.Sort | zenotime.py:139 | definition of `sorted()` as an insertion sort; specified by SortSpec and SortedPermutationUnique |
| PySorted.SortSpec | zenotime.py:10 | `sorted(s)` is sorted and a permutation of `s` |
| PySorted.SortedPermutationUnique | zenotime.py:139 | two sorted permutations of one list are equal, so any stable or unstable `sorted` gives the same list |
| PySorted.SortedHeadIsLeast | zenotime.py:139 | the head of a sorted list is at most each of its elements |
| PySorted.SortedDistinctStrict | zenotime.py:10 | a sorted list without duplicates is strictly increasing |
| PySorted.DistinctCountsAtMostOne | zenotime.py:10 | a list without duplicates holds every string at most once |
| PySorted.RepeatCountsTwice | zenotime.py:10 | a string listed at two positions is counted at least twice |
| PySorted.PermutationKeepsDistinct | zenotime.py:10 | a rearranged list has duplicates exactly when the original has |
| Zeno.Init | zenotime.py:9-10 | the constructor's `all_timezones` is sorted, holds exactly the database's identifiers, and is duplicate-free exactly when the database is |
| Zeno.ZenoTime.SearchTimezone | zenotime.py:20-23 | definition of `search_timezone`; specified by SearchExactMatches, SearchKeepsOrder, SearchEmptyQuery and SearchCaseInsensitive |
| Zeno.Matches | zenotime.py:23 | definition of the comprehension's condition `query in tz.lower()`; specified through ContainsIffOccurs and SelectCount |
| Zeno.Select | zenotime.py:23 | definition of the comprehension; specified by SelectCount, SelectSubsequence and SelectEverything |
| Zeno.SubsequenceMembers | zenotime.py:23 | a subsequence holds only elements of the list it was taken from |
| Zeno.SubsequenceKeepsOrder | zenotime.py:23 | a subsequence of a sorted (duplicate-free) list is sorted (duplicate-free) |
| Zeno.SelectCount | zenotime.py:23 | the comprehension keeps every matching identifier as often as the list holds it and drops every other |
| Zeno.SelectSubsequence | zenotime.py:23 | the comprehension's result is a subsequence of its input |
| Zeno.SelectEverything | zenotime.py:23 | with the empty query the comprehension keeps the whole list |
| Zeno.SearchExactMatches | zenotime.py:20-23 | `search_timezone(q)` holds `x` exactly when `x` is listed and `q.lower()` is in `x.lower()`, with the list's multiplicity |
| Zeno.SearchKeepsOrder | zenotime.py:23 | the search result is a subsequence of `all_timezones`, so it keeps the list's order and distinctness |
| Zeno.SearchResultSorted | zenotime.py:10 | the results of a freshly constructed object are sorted, and strictly increasing when the database lists no identifier twice |
| Zeno.SearchEmptyQuery | zenotime.py:22-23 | the empty query returns all of `all_timezones` |
| Zeno.SearchCaseInsensitive | zenotime.py:22 | searching for `q` and for `q.lower()` gives the same list |
| Zeno.TokyoMatches | zenotime.py:149 | "tokyo" occurs in the lower-cased "Asia/Tokyo" |
| Zeno.SearchFindsTokyo | zenotime.py:149 | the documented `-s tokyo` finds `Asia/Tokyo`, and so does `-s TOKYO` |
| Zeno.DisplayTime | zenotime.py:29-35 | `display_time` gives the error line exactly when the lookup returned `None`, and otherwise the time line for that zone |
| Regions.Rank | zenotime.py:122-129 | each dict key has a position below six |
| Regions.RegionAt | zenotime.py:122-129 | definition of the dict's key order; specified by RankMatches |
| Regions.Label | zenotime.py:122-129 | the dict's keys, printed as section headers |
| Regions.Keyword | zenotime.py:122-129 | the word searched for in each key; specified by KeywordIsFirstWordOfLabel |
| Regions.RankMatches | zenotime.py:122-129 | the `n`-th key in iteration order is the key of rank `n`, and only that one |
| Regions.KeywordIsFirstWordOfLabel | zenotime.py:132 | the word searched for is `r.split()[0]` of the dict key |
| Regions.FirstMatchingFrom | zenotime.py:132 | a region found from position `n` on is at or after `n` and its keyword occurs in the identifier |
| Regions.Classify | zenotime.py:132 | definition of `next(r for r in regions.keys() if r.split()[0] in tz)`; specified by ClassifyIsFirstInDeclarationOrder and ClassifyFails |
| Regions.FirstMatchingFromIsFirst | zenotime.py:132 | from position `n`, region `r` is found exactly when its keyword occurs and no keyword between `n` and `r` does |
| Regions.FirstMatchingFromNone | zenotime.py:132 | from position `n`, nothing is found exactly when no keyword from `n` on occurs |
| Regions.ClassifyIsFirstInDeclarationOrder | zenotime.py:132 | `next(...)` yields `r` exactly when `r`'s keyword occurs in the identifier and no earlier key's does |
| Regions.ClassifyFails | zenotime.py:132 | `next(...)` raises `StopIteration` exactly when no key's first word occurs in the identifier |
| Regions.Bucket | zenotime.py:131-133 | definition of one region's list after the loop; specified by BucketMembers and BucketCount |
| Regions.Buckets | zenotime.py:122-133 | the dict has all six keys, each holding its bucket |
| Regions.BucketsSnoc | zenotime.py:133 | appending one classified identifier extends its own region's list and leaves every other list alone |
| Regions.FirstUnclassified | zenotime.py:131-132 | the first position whose identifier has no region, or none exactly when every identifier has one |
| Regions.Group | zenotime.py:131-133 | definition of the grouping loop's outcome; implemented by GroupByRegion, specified by BucketsPartition and GroupStopsAtFirst |
| Regions.GroupByRegion | zenotime.py:122-133 | the grouping loop fails at the first unclassifiable entry, and otherwise fills the dict with the buckets of the whole list |
| Regions.SectionsFrom | zenotime.py:135-140 | definition of the output loop from the `n`-th key on; implemented by Emit, specified by SectionsShape |
| Regions.SectionsFromUnfold | zenotime.py:135-140 | a region is printed when its list is non-empty and skipped otherwise |
| Regions.Emit | zenotime.py:135-140 | the output loop emits the sections of the dict, in key order |
| Regions.ListAllTimes | zenotime.py:131-140 | `list_all_times` either stops at the grouping's failure index or emits the sections of the filled dict |
| Regions.SectionsFromBuckets | zenotime.py:135-140 | every section holds the sorted list of a non-empty region |
| Regions.SectionsFromOrdered | zenotime.py:135 | sections from position `n` on come in strictly increasing key order |
| Regions.SectionsFromComplete | zenotime.py:136 | every non-empty region from position `n` on has a section |
| Regions.SortedBucket | zenotime.py:139 | `sorted` of a non-empty bucket is a non-empty sorted permutation of it |
| Regions.SectionsShape | zenotime.py:135-140 | the sections follow declaration order, cover exactly the non-empty regions, and each is a sorted permutation of its bucket |
| Regions.BucketMembers | zenotime.py:131-133 | an identifier is in bucket `r` exactly when it is listed and classified to `r` |
| Regions.InExactlyOneBucket | zenotime.py:131-133 | a listed, classified identifier is in exactly one bucket |
| Regions.GatheredFrom | zenotime.py:135 | definition of the buckets concatenated in key order; specified by GatheredCount and BucketsPartition |
| Regions.BucketCount | zenotime.py:131-133 | each bucket holds its identifiers as often as the list does, and nothing else |
| Regions.GatheredCount | zenotime.py:131-133 | the buckets from key `n` on hold an identifier as often as the list does when its region is among them |
| Regions.BucketsPartition | zenotime.py:131-133 | when classification is total, the buckets form a disjoint cover of the list and their sizes add up to its length |
| Regions.PartitionCount | zenotime.py:131-133 | when classification is total, the buckets together hold each identifier as often as the list does |
| Regions.Printed | zenotime.py:139-140 | definition of the identifiers printed, section by section; specified by PrintedGathered |
| Regions.PrintedGathered | zenotime.py:135-140 | the printed identifiers are the concatenated buckets, up to the order within each |
| Regions.OverviewPrintsEachEntryOnce | zenotime.py:131-140 | when the grouping succeeds, the overview prints every curated identifier exactly as often as it is listed |
| Regions.MajorTimezones | zenotime.py:39-116 | the curated list, block by block in source order |
| Regions.GroupStopsAtFirst | zenotime.py:131-132 | an unclassifiable first entry stops the grouping at index 0 |
| Regions.UnclassifiedWhenLettersMissing | zenotime.py:132 | an identifier lacking some letter of every keyword has no region |
| Regions.UnclassifiedWithoutOpenings | zenotime.py:132 | an identifier in which no keyword's first two letters ("No", "So", "Eu", "As", "Oc", "Af") stand side by side has no region |
| Regions.NewYorkOpeningFree | zenotime.py:41 | no keyword's first two letters stand side by side in "America/New_York" |
| Regions.LosAngelesOpeningFree | zenotime.py:42 | no keyword's first two letters stand side by side in "America/Los_Angeles" |
| Regions.ChicagoOpeningFree | zenotime.py:43 | no keyword's first two letters stand side by side in "America/Chicago" |
| Regions.TorontoOpeningFree | zenotime.py:44 | no keyword's first two letters stand side by side in "America/Toronto" |
| Regions.VancouverOpeningFree | zenotime.py:45 | no keyword's first two letters stand side by side in "America/Vancouver" |
| Regions.MexicoCityOpeningFree | zenotime.py:46 | no keyword's first two letters stand side by side in "America/Mexico_City" |
| Regions.PanamaOpeningFree | zenotime.py:47 | no keyword's first two letters stand side by side in "America/Panama" |
| Regions.HavanaOpeningFree | zenotime.py:48 | no keyword's first two letters stand side by side in "America/Havana" |
| Regions.SaoPauloOpeningFree | zenotime.py:51 | no keyword's first two letters stand side by side in "America/Sao_Paulo" |
| Regions.BuenosAiresOpeningFree | zenotime.py:52 | no keyword's first two letters stand side by side in "America/Buenos_Aires" |
| Regions.SantiagoOpeningFree | zenotime.py:53 | no keyword's first two letters stand side by side in "America/Santiago" |
| Regions.LimaOpeningFree | zenotime.py:54 | no keyword's first two letters stand side by side in "America/Lima" |
| Regions.BogotaOpeningFree | zenotime.py:55 | no keyword's first two letters stand side by side in "America/Bogota" |
| Regions.SydneyOpeningFree | zenotime.py:89 | no keyword's first two letters stand side by side in "Australia/Sydney" |
| Regions.MelbourneOpeningFree | zenotime.py:90 | no keyword's first two letters stand side by side in "Australia/Melbourne" |
| Regions.BrisbaneOpeningFree | zenotime.py:91 | no keyword's first two letters stand side by side in "Australia/Brisbane" |
| Regions.PerthOpeningFree | zenotime.py:92 | no keyword's first two letters stand side by side in "Australia/Perth" |
| Regions.AucklandOpeningFree | zenotime.py:93 | no keyword's first two letters stand side by side in "Pacific/Auckland" |
| Regions.FijiOpeningFree | zenotime.py:94 | no keyword's first two letters stand side by side in "Pacific/Fiji" |
| Regions.HonoluluOpeningFree | zenotime.py:95 | no keyword's first two letters stand side by side in "Pacific/Honolulu" |
| Regions.PortMoresbyOpeningFree | zenotime.py:113 | no keyword's first two letters stand side by side in "Pacific/Port_Moresby" |
| Regions.GuadalcanalOpeningFree | zenotime.py:114 | no keyword's first two letters stand side by side in "Pacific/Guadalcanal" |
| Regions.NoumeaLacksKeywordLetters | zenotime.py:115 | "Pacific/Noumea" lacks a letter of each of the six keywords |
| Regions.NorthAmericaBlockUnclassified | zenotime.py:40-48 | no entry of the North America block has a region |
| Regions.SouthAmericaBlockUnclassified | zenotime.py:50-55 | no entry of the South America block has a region |
| Regions.OceaniaBlockUnclassified | zenotime.py:88-95 | no entry of the Oceania block has a region |
| Regions.SouthPacificBlockUnclassified | zenotime.py:112-115 | no entry of the South Pacific block has a region |
| Regions.AmericasAndPacificUnclassified | zenotime.py:132 | none of the 23 curated "America/…", "Australia/…" and "Pacific/…" entries has a region |
| Regions.NewYorkUnclassified | zenotime.py:41 | "America/New_York" has no region |
| Regions.OverviewCrashesAtFirstEntry | zenotime.py:131-132 | the curated list starts with "America/New_York", and the grouping fails at index 0 |
| Regions.LondonClassified | zenotime.py:58 | "Europe/London" is classified to Europe |
| Regions.IntendedRegion | zenotime.py:39-116 | the region of each curated entry, from the comment heading its block; none exactly for identifiers outside the list |
| Regions.CorrectedOverviewCovers | zenotime.py:131-140 | with that table the grouping succeeds and the overview prints each curated identifier exactly once |
| Cli.Truthy | zenotime.py:161 | Python truthiness of an optional string: given and non-empty |
| Cli.Dispatch | zenotime.py:161-178 | timezone mode exactly when `-t` is a non-empty string; else search exactly when `-s` is; else list exactly when `-l`; else the overview |
| Cli.TimezoneOverridesRest | zenotime.py:161-162 | a non-empty `-t` wins whatever `-s` and `-l` say |
| Cli.EmptyOptionFallsThrough | zenotime.py:161-163 | `-t ""` and `-s ""` act as if the option were absent |
| Cli.Lines | zenotime.py:168-169 | one `display_time` line per identifier, in order |
| Cli.LinesReportUnknown | zenotime.py:29-35 | each line names its identifier and is the error line exactly when the lookup failed |
| Cli.DisplayAll | zenotime.py:168-169 | the display loop produces the lines of its identifiers |
| Cli.Blocks | zenotime.py:137-140 | one block per section, holding its header region and the lines of its identifiers |
| Cli.DisplaySections | zenotime.py:135-140 | the printing loop produces the blocks of the sections |
| Cli.Overview | zenotime.py:131-140 | definition of what `list_all_times` reports; implemented by ShowOverview, specified through DefaultModeCrashes and CorrectedOverviewPrintsAll |
| Cli.ShowOverview | zenotime.py:131-140 | `list_all_times` reports the grouping's failure index or the blocks of the emitted sections |
| Cli.Run | zenotime.py:159-178 | each mode reports what it prints: the one time line, the search's lines or the no-match message, the sorted list, or the overview |
| Cli.DefaultModeCrashes | zenotime.py:177-178 | with no option the dispatch picks the overview, and the overview stops with `StopIteration` at curated entry 0 |
| Cli.CorrectedOverviewPrintsAll | zenotime.py:135-140 | with the intended table, the overview prints one block per emitted section, under that section's region |

## Left out

- `pytz.all_timezones`, `pytz.timezone` and `datetime.now`: a foreign database and the wall clock. They become the `database` and `now` parameters of `Cli.Run`. `now` returns `None` where `pytz` raises `UnknownTimeZoneError`.
- `format_time` and `strftime`: the formatted time is the abstract type `T`. Its `%Z`/`%z` fields come from tz rules the model cannot see.
- `if time:` in `display_time`: a `datetime` object is always true, so the model takes every `Some` as a time.
- `argparse` setup and help text: `Cli.Args` holds the parsed fields.
- Printing is not modelled: the headers, the separator lines, the 35-column padding and the "Matching timezones" banner. Each mode's printed content is an `Output` value instead.
- The `KeyboardInterrupt` handler and process exit: terminal I/O.
- PyStr.Lower: lower-cases only the ASCII letters `A`–`Z`, not the whole of Unicode as `str.lower` does. Timezone identifiers are ASCII.
- Regions.Classify: `StopIteration` escaping `main` is modelled as the `Failure` (index) of the grouping and as `Cli.Output.StopIterationAt`. The traceback is not modelled.
- The insertion-ordered `dict` is modelled as a map plus a fixed key order (`Regions.RegionAt`). Its iteration order is the declaration order, as in Python 3.7 and later.

## Findings

| source | as written | input that shows it | evidently intended | confidence | as-written member | corrected member |
|---|---|---|---|---|---|---|
| zenotime.py:132 | each identifier is classified by whether "North", "South", "Europe", "Asia", "Oceania" or "Africa" occurs in it; `next` has no default | "America/New_York", the first curated entry (also each of the 23 curated "America/…", "Australia/…" and "Pacific/…" entries) | each curated entry is listed under the region its comment block names ("Central Asia" under Asia, "South Pacific" under Oceania), and the overview prints all of them | not executed | Regions.OverviewCrashesAtFirstEntry | Regions.CorrectedOverviewCovers |

The grouping and printing (`Regions.GroupByRegion`, `Regions.Emit`, `Cli.ShowOverview`) take the classification as a parameter.

- `Cli.Run` passes the program's own rule, `Regions.Classify`, so it reproduces the crash (`Cli.DefaultModeCrashes`).
- The corrected table `Regions.IntendedRegion`, given to the same methods, makes the overview complete (`Regions.CorrectedOverviewCovers`, `Cli.CorrectedOverviewPrintsAll`).
