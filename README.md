# goccc usage and cost pipeline, in Dafny

goccc reads the JSONL transcripts of an AI coding assistant and reports what they cost. The pipeline has these steps:

- It scans every `*.jsonl` file under `<base>/projects`.
- It keeps the assistant lines that carry usage. It deduplicates them by request ID, so the last write wins.
- It prices each record from a rate card: exact model match, then the longest family prefix, then a default card.
- It folds the records into three bucket maps: per model, per day and model, and per project and model.

The status-line command pools one session's transcript with its sub-agent transcripts and sums their cost. It lists the MCP servers the session can see: configured, enabled through plugins, or project-local, minus the ones the project disables. It then assembles the parts of the line.

The modules:

| file | module | what it holds |
|---|---|---|
| `wrappers.dfy` | `Wrappers` | `Option`, `Result` |
| `text.dfy` | `Text` | the Go string helpers the core relies on: ASCII lower-casing, `strings.Index`, `Contains`, `HasSuffix`, `TrimSuffix`, `Join`, byte-wise string order, slash paths (`Base`, `Dir`, `Join`), decimal rendering |
| `pricing.dfy` | `Pricing` | rate cards, the family-prefix table and its length sort, `resolvePricing`, `CacheWriteTokens`, `calcCost`, `shortModel` |
| `ingest.dfy` | `Ingest` | `parseFile`: line classification, the scanner loop, the dedup map shared by every call |
| `aggregate.dfy` | `Aggregation` | buckets, get-or-create, the three views, `Totals`, `DateRange` |
| `parser.dfy` | `Logs` | `parseLogs`: the cutoff, the walk with its project filter and modification-time skip, the composed result |
| `statusline.dfy` | `Statusline` | `parseSession`, `sessionCost`, the parts of the status line |
| `mcp.dfy` | `Mcp` | `projectSlug`, `findProject`, `projectPathFromSlug`, the disabled list, filtering, case-insensitive dedupe and sort, plugin discovery, `detectMCPs` |
| `format.dfy` | `Format` | `shortProject`, `fmtDuration`, the threshold and suffix choice of `fmtTokens` |

Modelling choices:

- **Decoded lines.** A line is its raw text together with what decoding it gives: `DecodeError`, or a record with optional fields.
- **Timestamps** are `Missing`, `Unparseable`, or `Parsed(instant, localDate)`.
- **Costs** are `real`, so the test values hold exactly.
- **File system.** A directory walk is the sequence of files it reaches, in order. Each file has its path below `projects`, its modification time and its content. A content is `OpenFailed` or `Scanned(lines, readFailed)`.
- **Map iteration order.** Go's random map order is a nondeterministic choice (`:|`) in the methods. Their specifications do not depend on it: set sums, sets of names, sorted output.
- **Mutation.** Where Go mutates state, the model is imperative:
  - the shared dedup map is the field of class `Ingest.Dedup`, which `ParseFile` modifies;
  - the loops over lines, files, buckets and names are `for`/`while` loops with invariants;
  - each loop is proved against a specification function (`FoldLines`, `WalkFold`, `ExpectedBuckets`, `Kept`, `FirstOfEach`, `PluginFold`, `CollapseAll`, …).

## Model

| member | source | states |
|---|---|---|
| Pricing.InsertByLength | pricing.go:47-51 | inserting a prefix into a longest-first list keeps it longest-first and adds one element |
| Pricing.InsertByLengthPermutes | pricing.go:47-51 | the insertion step of the `init` sort adds exactly that prefix (multiset) |
| Pricing.SortLongestFirst | pricing.go:47-51 | the `init` sort yields a longest-first permutation of the family table |
| Pricing.SortIsSortedFrom | pricing.go:47-51 | the sorted table is a longest-first permutation of the declared one |
| Pricing.FirstPrefixMatch | pricing.go:59-63 | the index found is the first prefix of the model in list order, or -1 when none is |
| Pricing.PrefixesOfSameLength | pricing.go:59-63 | two prefixes of one string with equal length are equal |
| Pricing.LongestMatchUnique | pricing.go:47-63 | with distinct prefixes, the longest matching prefix is unique |
| Pricing.LongestMatchExists | pricing.go:59-63 | whenever some prefix matches, a longest matching one exists |
| Pricing.ResolutionIgnoresTieOrder | pricing.go:55-65 | for any longest-first order of distinct prefixes: exact key, else the longest matching prefix's card, else the default |
| Pricing.InitSortResolvesAlike | pricing.go:47-65 | resolution after the `init` sort equals resolution under any other longest-first order (unstable sort ties do not matter) |
| Pricing.ResolvedRatesNonNegative | pricing.go:55-65 | non-negative cards resolve to non-negative rates |
| Pricing.FamilyPrefixesDistinct | pricing.go:30-45 | the family prefixes are pairwise distinct |
| Pricing.FamilyKeysArePriced | pricing.go:18-45 | every family key is a key of the pricing table, so a prefix hit never yields a zero card |
| Pricing.TableRatesNonNegative | pricing.go:18-53 | every card has non-negative rates; the default card is claude-sonnet-4-6's (3, 15) |
| Pricing.SortedFamilyPrefixesIsSortedFrom | pricing.go:30-51 | the table `resolvePricing` uses is a longest-first ordering of the declared prefixes |
| Pricing.ResolvePricing | pricing.go:55-65 | exact key ⇒ that card; else longest family prefix's card; no match ⇒ (3, 15); rates non-negative |
| Pricing.ExactResolutionExample | pricing_test.go:12-20 | claude-opus-4-6 resolves to (5, 25) |
| Pricing.CacheWriteTokens | pricing.go:80-89 | nested breakdown when present and not both zero; else (flat, 0) when flat > 0, else (0, 0); the 1h tier only ever comes from the breakdown |
| Pricing.CostAtNonNegative | pricing.go:13-15 | the five-term cost with the derived cache rates (1.25×, 2×, 0.1× input) is ≥ 0 for non-negative tokens and 0 for zero tokens |
| Pricing.CostAtWithoutCache | pricing.go:91-101 | with no cache tokens only the input and output rates contribute |
| Pricing.CalcCost | pricing.go:91-101 | zero usage costs 0; non-negative usage costs ≥ 0 |
| Pricing.CalcCostWithoutCache | pricing.go:91-101 | a request without cache tokens costs input/1e6 × input rate + output/1e6 × output rate |
| Pricing.CalcCostExamples | pricing_test.go:36-79 | opus-4-6: 30.0 for 1M+1M, 6.75 for 1M cache read + 1M flat creation, 16.25 for 1M 5m + 1M 1h |
| Pricing.FirstLabel | pricing.go:103-133 | the first label whose pattern occurs in the model, or -1 when none does |
| Pricing.ShortModel | pricing.go:103-133 | the label of the first pattern found in the lower-cased model; with no match, the original model unchanged |
| Pricing.ShortModelExample | pricing_test.go:81-102 | claude-opus-4-6 is shown as "Opus 4.6" |
| Ingest.SyntheticIdInjective | parser.go:103-106 | `_noid_<base>_<n>` names differ for different line numbers within one file |
| Ingest.Classify | parser.go:63-99 | a line reaches the decoder iff non-empty and mentioning `"type":"assistant"`; a decode failure is malformed; accepted lines are billable; the missing, unparseable and parsed timestamp rules against the cutoff |
| Ingest.LineWrite | parser.go:100-112 | the write of the n-th accepted line: synthetic iff the request ID is empty, keyed by the request ID or else `_noid_<base>_<n>`, holding the line's model, usage and date under the file's project |
| Ingest.LineWriteKeyAvoids | parser.go:103-108 | a line whose request ID differs from `id` never writes `id`, unless `id` looks like a synthetic key |
| Ingest.Step | parser.go:63-113 | a malformed line adds one parse error and nothing else; an accepted line adds one to rawCount and appends exactly its `LineWrite`; no other line writes; an unparseable timestamp adds a parse error and is kept |
| Ingest.AcceptedLinesAppend | parser.go:63-114 | the accepted lines of two runs of lines are those of the first, then those of the second |
| Ingest.AcceptedAround | parser.go:63-114 | an accepted line sits between the accepted lines before it and after it |
| Ingest.FoldLines | parser.go:63-114 | rawCount equals the number of writes, and the i-th write is keyed by its line's request ID or by `_noid_<base>_i` |
| Ingest.FoldLinesWrites | parser.go:63-114 | one write per accepted line, and the i-th write is the `LineWrite` of the i-th accepted line: its request ID (or `_noid_<base>_i`) and its record |
| Ingest.StepFollowsAccepted | parser.go:63-113 | one more line keeps the writes equal to the `LineWrite`s of the accepted lines so far |
| Ingest.TwoLinesSameId | parser.go:103-113 | two accepted lines of a file with one request ID leave a map with that single key and the second line's record |
| Ingest.AcceptedPair | parser.go:63-100 | two accepted lines are both kept, in order |
| Ingest.ApplyTwoSameKey | parser.go:108-113 | two writes to one key leave the second one's record |
| Ingest.NoAcceptedIdVerdicts | parser.go:63-106 | when no accepted line carries `id`, no accepted verdict does |
| Ingest.FileLastWrite | parser.go:100-113 | within a file, an accepted line with a non-empty ID not starting with `_noid_` that no later accepted line repeats writes its record under that ID, and no later write of the file touches it |
| Ingest.LaterLinesAvoidKey | parser.go:100-113 | the writes made after such a line never target its ID |
| Ingest.FileAvoidsKey | parser.go:100-113 | for an ID that does not start with `_noid_`, a file none of whose accepted lines carries `id` never writes `id` |
| Ingest.ScanLine | parser.go:63-113 | one scanner iteration updates the counters as `Step` says and stores its write in the shared map |
| Ingest.SyntheticIdsDistinct | parser.go:100-106 | two synthetic writes of one file have different keys |
| Ingest.NothingBillableNoWrites | parser.go:65-71 | a file whose lines never reach the decoder leaves the state untouched |
| Ingest.ApplyWritesAppend | parser.go:108-113 | writing two runs in turn equals writing their concatenation |
| Ingest.KeysAfterWrites | parser.go:108-113 | the keys after a run of writes are the old keys plus the written ones |
| Ingest.LastWriteWins | parser.go:108-113 | a key maps to the record of its last write (whole replacement) |
| Ingest.UnwrittenKeysKept | parser.go:108-113 | a key no write touches keeps its record |
| Ingest.ApplyWritesSnoc | parser.go:108-113 | one more write replaces the record under its key |
| Ingest.ConcatTailAvoids | parser.go:138-183 | the writes of the first files come first, and if no later file writes `id`, nothing after them does |
| Ingest.ConcatPrefixStep | parser.go:138-183 | the writes up to file k+1 are those up to file k followed by file k's |
| Ingest.ChunkLastWrite | parser.go:108-113 | a write that nothing after it in its file, and nothing in a later file, repeats decides the record under its key |
| Ingest.KeysBoundedByWrites | parser.go:108-113 | a run of writes adds at most as many keys as it has writes |
| Ingest.TraceIsFold | parser.go:63-114 | a trace built step by step ends in the fold of the lines |
| Ingest.Dedup.constructor | parser.go:134 | the dedup map starts empty |
| Ingest.ParseFile | parser.go:54-119 | an unopenable file changes nothing and reports failure; otherwise the map receives exactly the fold's writes, counters equal the fold's, and a read error is reported after the writes were made |
| Aggregation.Contribution | parser.go:197-215 | a record adds exactly one request, its `calcCost`, its input, output and cache-read tokens, and its 5m and 1h cache writes each in its own field |
| Aggregation.GetOrCreate | parser.go:221-228 | returns the existing bucket or an empty one, and only that key's slot may change |
| Aggregation.GetOrCreateNested | parser.go:230-237 | same, one level down, creating the inner map when missing |
| Aggregation.CreditFacts | parser.go:207-215 | crediting a bucket adds the contribution at that key and leaves every other key untouched |
| Aggregation.CreditNestedFacts | parser.go:201-215 | crediting a nested bucket changes only that (outer, model) slot |
| Aggregation.TotalCredit | parser.go:207-215 | crediting a bucket raises the map's field-wise total by the contribution |
| Aggregation.TotalRequestsCountKeys | parser.go:193 | with one request per key, the request total is the number of keys |
| Aggregation.Column | parser.go:201-204 | the per-model column of a view holds exactly the outer keys having that model |
| Aggregation.AdditiveStep | parser.go:197-216 | crediting a record to its model bucket and its nested bucket keeps "model bucket = sum of its column" |
| Aggregation.ExpectedAdditive | parser.go:197-216 | every model bucket equals the field-wise sum of its per-day (or per-project) buckets |
| Aggregation.ExpectedGrandTotal | parser.go:197-216 | the sum of the model buckets is the sum of all record contributions |
| Aggregation.RequestsCountRecords | parser.go:193-214 | the requests of all buckets add up to the number of deduplicated records |
| Aggregation.Aggregate | parser.go:188-216 | the three views are exactly the per-model, per-(day, model) and per-(project, model) sums; additivity holds for both nested views; requests total = record count |
| Aggregation.Totals | parser.go:265-278 | the field-wise sum over the model buckets, CacheW = CacheW5m + CacheW1h |
| Aggregation.DateRange | parser.go:250-263 | from and to are the least and greatest day other than "unknown" in string order, or "" and "" when there is none |
| Logs.CutoffFor | parser.go:122-126 | a cutoff exists iff days > 0, at local midnight days−1 days before today |
| Logs.CutoffKeepsLastDays | parser.go:122-126 | an instant passes the cutoff iff its day is one of the last `days` days |
| Logs.FirstSegment | parser.go:168-173 | the project slug is the path's first segment below `projects` |
| Logs.WalkStep | parser.go:138-183 | a file not visited changes nothing; a visited one counts one file; a visited file that opens appends exactly its `FoldLines` writes and adds its parse errors unless reading failed; an unopenable one writes nothing and adds no parse errors |
| Logs.WalkChunks | parser.go:138-183 | file j's writes are the writes parseFile makes for the j-th file of the walk |
| Logs.FileWritesAvoidKey | parser.go:171-181 | for an ID that does not start with `_noid_`, a visited file none of whose accepted lines carries `id` adds no write to `id`; a file the walk skips adds none at all |
| Logs.WalkFoldWrites | parser.go:138-183 | the walk's writes are every file's writes, in walk order |
| Logs.LastAcceptedLineWins | parser.go:100-113 | deduplication across the walk: the map holds, under a request ID, the record (model, project, date, usage) of the last accepted line carrying it, in its file or any later file the walk reads (files it skips do not count) |
| Logs.StreamingUpdatesKeepLast | parser_test.go:106-127 | a walk of one file whose two accepted lines carry the same request ID leaves exactly one record, the second line's |
| Logs.OneFileDeduped | parser.go:138-183 | walking one visited, readable file leaves exactly the map of that file's writes |
| Logs.TotalFilesCountsVisits | parser.go:175 | totalFiles is the number of `.jsonl` files visited, counted before reading |
| Logs.EmptyFilterPrunesNothing | parser.go:148 | an empty project filter prunes nothing |
| Logs.FilterOnlyPrunes | parser.go:148-154 | the filter acts only by dropping the files of pruned project directories |
| Logs.WalkStepPruned | parser.go:148-154 | a file under a pruned directory is skipped, any other is treated as with no filter |
| Logs.FilterIgnoresCase | parser.go:135-151 | filters equal after lower-casing give the same walk |
| Logs.NoCutoffIgnoresModTimes | parser.go:162-166 | with no cutoff, modification times do not matter |
| Logs.ParseLogs | parser.go:121-219 | a missing or non-directory `projects` gives the error and no result; otherwise counters come from the walk, TotalRecords is the number of distinct keys, the views are the expected sums and additive, and requests add up to TotalRecords |
| Statusline.ParseSession | statusline.go:42-71 | unreadable transcript ⇒ error; listing error other than missing ⇒ that error; otherwise the map of the main transcript's writes followed by the pooled sub-agents' writes |
| Statusline.PoolSubagents | statusline.go:60-68 | only non-directory `*.jsonl` entries are parsed, in listing order, into the shared map; a failing one keeps what it wrote |
| Statusline.WritesKeepProject | statusline.go:45 | writes that all carry one project keep every record in that project |
| Statusline.SubagentWritesHaveNoProject | statusline.go:65 | sub-agent records are stored with an empty project |
| Statusline.SessionRecordsHaveNoProject | statusline.go:42-68 | every record of a session has an empty project |
| Statusline.SubagentsOverrideMain | statusline.go:60-68 | a request ID written by a sub-agent file ends up with that file's last record, whatever the main transcript said |
| Statusline.LaterWriteWins | statusline.go:45-68 | a write of the later of two runs that nothing after it overrides decides its key |
| Statusline.CostOfNothing | statusline.go:74 | the empty sum is 0 |
| Statusline.CostStep | statusline.go:75-77 | adding one record adds its `calcCost` |
| Statusline.SessionCost | statusline.go:73-79 | the result is the sum of `calcCost` over every record, in whatever order the map gives them |
| Statusline.CostOfPair | statusline.go:73-79 | two records cost the sum of their costs |
| Statusline.SessionCostExample | statusline_test.go:136-156 | the two opus-4-6 requests of the test cost 0.0525 |
| Statusline.OpusRequestCosts | statusline_test.go:147-150 | 1000/500 tokens cost 0.0175 and 2000/1000 cost 0.035 on opus-4-6 |
| Statusline.TotalCostNonNegative | parser.go:213 | buckets of non-negative cost sum to a non-negative cost |
| Statusline.SessionCostNonNegative | statusline.go:73-79 | with non-negative usage the session cost is ≥ 0 |
| Statusline.SessionCostIsReportTotal | statusline.go:73-79 | the session cost equals the cost total of the per-model report over the same records |
| Statusline.Parts | statusline.go:95-109 | session; today iff today's cost > 0; ctx; MCP part iff names non-empty; the short model last |
| Statusline.FormatStatusline | statusline.go:81-110 | the line is exactly the `Parts`, in order, joined by " · "; so it starts with the session part and ends with the model part |
| Text.JoinLayout | statusline.go:109 | in `strings.Join`, each part sits at its offset, a separator follows every part but the last, and the last part ends the string |
| Mcp.ProjectSlug | mcp.go:177-180 | same length; '/', '\\' and ':' become '-', every other character stays |
| Mcp.SlugHasNoSeparators | mcp.go:177-180 | a slug contains none of '/', '\\', ':' |
| Mcp.ProjectSlugIdempotent | mcp.go:177-180 | slugging a slug changes nothing |
| Mcp.FindProject | mcp.go:50-61 | exact key ⇒ its config; else a config whose key equals the path after '\\'→'/' on both; else the empty config |
| Mcp.ProjectPathFromSlug | mcp.go:159-173 | "" for an empty transcript path or no projects; a non-empty result is a project whose slug is the transcript's parent directory name; one is found whenever such a project exists |
| Mcp.PluginEntryDisablesPlugin | mcp.go:211-212 | `plugin:<p>:<server>` disables lower(p) |
| Mcp.PlainEntryDisablesItself | mcp.go:213-214 | an entry without ':' disables its lower-cased self |
| Mcp.OneColonEntryDisablesItself | mcp.go:211-214 | `plugin:<p>` with one colon disables the whole entry, lower-cased |
| Mcp.DisabledNamesMembers | mcp.go:210-216 | a name is disabled iff some entry maps to it |
| Mcp.CollectDisabledMCPs | mcp.go:204-218 | the disabled set is exactly the names the entries of both lists map to; two empty lists give the empty set |
| Mcp.KeptMembers | mcp.go:220-231 | a name is kept iff it is listed and its lower case is not disabled |
| Mcp.KeptOrder | mcp.go:220-231 | filtering distributes over concatenation, so input order is kept |
| Mcp.KeptAllWhenNothingDisabled | mcp.go:221-223 | with nothing disabled every name is kept |
| Mcp.FilterDisabled | mcp.go:220-231 | the result is the order-preserving subsequence of names not disabled; the identity when nothing is disabled |
| Mcp.FirstOfEachUnique | mcp.go:234-242 | the kept names are pairwise different ignoring case and come from the input |
| Mcp.FirstOfEachCovers | mcp.go:234-242 | every case class of the input is represented |
| Mcp.FirstOfEachKeepsFirst | mcp.go:234-242 | each kept name is the first of its case class |
| Mcp.Insert | mcp.go:243 | the insertion step of the sort adds exactly one element (multiset) |
| Mcp.InsertSorted | mcp.go:243 | inserting into a sorted list keeps it sorted |
| Mcp.SortStrings | mcp.go:243 | the sort is a permutation |
| Mcp.SortStringsSorted | mcp.go:243 | the sort's output is in byte-wise string order |
| Mcp.PermutationKeepsNoCaseDuplicates | mcp.go:243 | sorting keeps case-insensitive uniqueness |
| Mcp.DeduplicateAndSort | mcp.go:233-245 | sorted; no two equal ignoring case; each is the first of its class in the input; a subset of the input; every input class represented |
| Mcp.PluginNameOf | mcp.go:95-98 | `<name>@<marketplace>` names plugin `<name>` |
| Mcp.EnabledSetMembers | mcp.go:90-99 | a plugin is enabled iff some key set to true names it |
| Mcp.EnabledNames | mcp.go:90-99 | the loop collects exactly the enabled plugin names |
| Mcp.Climb | mcp.go:113-125 | the name found is a wanted ancestor directory strictly below the plugins directory; none found ⇒ no ancestor is wanted |
| Mcp.PluginStep | mcp.go:106-127 | one `.mcp.json` adds at most one enabled name not found before |
| Mcp.PluginFold | mcp.go:104-128 | every found name is enabled |
| Mcp.FoundNamesAncestors | mcp.go:104-128 | every found name is enabled and an ancestor of some `.mcp.json` below the plugins directory |
| Mcp.SaturatedFoldStays | mcp.go:119-121 | once every enabled name is found, the rest of the walk cannot change the result, so stopping early is sound |
| Mcp.SubsetOfSameSize | mcp.go:118-119 | a found set as large as the enabled set is the enabled set |
| Mcp.ClimbFrom | mcp.go:113-125 | the upward loop returns the first enabled, not yet found ancestor |
| Mcp.WalkStep | mcp.go:106-127 | the step of the walk adds exactly the name the climb hit, and that name is new |
| Mcp.WalkPlugins | mcp.go:104-128 | the walk with its remaining counter and early stop finds exactly the fold's names |
| Mcp.ToSlice | mcp.go:129-133 | the slice lists the found set without repetition |
| Mcp.ParseEnabledPluginMCPs | mcp.go:89-134 | names are exactly the enabled plugins found above some `.mcp.json`, each once; no enabled plugin ⇒ empty |
| Mcp.CandidatesListed | mcp.go:27-34 | the list built holds exactly the settings, plugin and project-local servers |
| Mcp.FoundConfigIsKnown | mcp.go:50-61 | the config found is a project's or the empty one |
| Mcp.ReportedFrom | mcp.go:45 | dedupe-and-sort of the filtered list is sorted, case-unique, and reports every candidate class not disabled |
| Mcp.DetectMCPs | mcp.go:24-46 | the result is sorted, case-insensitively unique, drawn from the candidates minus the disabled names of one config, and covers every such candidate class; that config is the `findProject` lookup of the cwd, or, with no cwd, of the path `projectPathFromSlug` chooses ("" when no project's slug matches, giving the empty config) |
| Format.StripHome | format.go:64-68 | stripping a home prefix never lengthens the slug |
| Format.StripHomes | format.go:63-70 | the prefix loop never lengthens the slug |
| Format.StripUser | format.go:64-68 | `<prefix><user>-<rest>` with a dash-free user becomes `<rest>` |
| Format.CollapsePass | format.go:73 | one `ReplaceAll("--", "-")` pass strictly shortens a string containing "--" |
| Format.CollapsePassNoop | format.go:72-73 | a string without "--" is left alone |
| Format.CollapseAll | format.go:72-74 | the rewrite loop leaves no "--" and never lengthens |
| Format.CollapseDashes | format.go:72-74 | the loop terminates (each pass shortens) and its result has no "--" |
| Format.NoDoubleDash | format.go:72-74 | a string with no two adjacent dashes passes the loop unchanged |
| Format.TrimLeftDashes | format.go:75 | drops exactly the leading dashes |
| Format.TrimRightDashes | format.go:75 | drops exactly the trailing dashes |
| Format.FirstDashToSlash | format.go:77-79 | length is kept |
| Format.FirstDashOnly | format.go:77-79 | only the first '-' becomes '/'; every other character, later dashes included, stays |
| Format.Truncate | format.go:84-86 | at most 40 characters; short strings unchanged; longer ones become "..." + their last 37 |
| Format.ShortProjectOf | format.go:61-88 | at most 40 characters; "" maps to "" |
| Format.StripHomePrefixes | format.go:63-70 | the prefix loop applies "-Users-" then "-home-" |
| Format.ShortProject | format.go:61-88 | the method computes the staged specification: strip, collapse, trim, first dash, fallback, truncate |
| Format.ShortProjectVia | format.go:61-88 | the result is the truncation of the processed string, or of the slug when that is empty |
| Format.ShortProjectPlain | format_test.go:56 | a short slug with no home prefix, no "--" and no outer dash gets its first dash turned into '/' |
| Format.ShortProjectUsersSlug | format_test.go:51-52 | `-Users-<user>-<rest>` shows `<rest>` with its first dash as '/' |
| Format.ShortProjectHomeSlug | format_test.go:54 | `-home-<user>-<rest>` shows `<rest>` with its first dash as '/' |
| Format.ShortProjectEmpty | format_test.go:62 | "" maps to "" |
| Format.CollapseDoubleDashExample | format_test.go:58 | "a--b" collapses to "a-b" |
| Format.SlashExample | format_test.go:58 | "a-b" becomes "a/b" |
| Format.ShortProjectDoubleDash | format_test.go:58 | "a--b" is shown as "a/b" |
| Format.FmtDuration | format.go:32-37 | the text ends in "µs" below 1ms and in "ms" from 1ms on; `FmtDurationTruncates` states the number shown |
| Format.FmtDurationTruncates | format.go:32-37 | below 1ms the digits read back are the truncated microseconds, otherwise the truncated milliseconds, followed by the unit |
| Format.FmtDurationExamples | format_test.go:72-89 | 500µs, 999µs, 1ms, 150ms, 1500ms for the test durations |
| Format.FmtTokens | format.go:19-30 | plain decimal iff n < 1000; otherwise K/M/B by the 1e3/1e6/1e9 thresholds, value × scale = n, 1 ≤ value (< 1000 below B) |
| Format.FmtTokensSuffixUnique | format.go:19-30 | the suffix is the only one that puts the value in [1, 1000) |
| Format.FmtTokensExamples | format_test.go:8-25 | 0, 500, 1.5K, 1.5M, 1.5B |

## Left out

- JSON decoding is not modelled. A line is given with its decoded outcome. `bufio.Scanner` buffer limits are not modelled.
- RFC 3339 parsing, `time.Now` and the conversion to local time are not modelled. A timestamp is an instant plus the local date it falls on. `now` is a parameter. A day is 86400 instant units, so daylight-saving days of other lengths are not modelled.
- File-system access is given as values, not performed. This covers `os.Stat`, `os.Open`, `filepath.WalkDir`, `os.ReadDir`, `readSettings`, `readClaudeProjects`, `extractCwdFromTranscript` and `parseProjectMCPsFromDir`.
- Walk warnings printed to stderr are not modelled.
- `Logs.ParseLogs`: the walk is the list of regular files reached. Directory pruning is modelled by its effect on the files below a pruned directory.
- `Logs.ParseLogs`: an error from `filepath.WalkDir` itself (parser.go:184-186) is not modelled, because the callback never returns one except `SkipDir`.
- Float64 arithmetic and the order of float summation are not modelled. Costs are exact reals.
- Cost and percentage rendering are not modelled. This covers `fmtCost`, `colorize`, `colorCost`, the context-percentage colour thresholds, terminal colours, and `fmtTokens`' `%.1f` rendering of the scaled value.
- `Statusline.Parts` and `Statusline.FormatStatusline` take the session, today and context strings already rendered.
- `readStatuslineInput`, `runStatusline`, `printJSON`, `printSummary` and main.go are output and command-line plumbing. They are not part of this model.
- The `Duration` field of the report is wall-clock time and is not modelled.
- Lower-casing covers ASCII only. Lengths count characters rather than UTF-8 bytes, so `shortProject`'s 40-byte limit is 40 characters here.
- `Statusline.ParseSession`: the transcript error carries only the text "parsing transcript", not the wrapped cause.
- `Statusline.ParseSession`: the stderr warning for a failing sub-agent file is not modelled.
- `Ingest.SyntheticIdsDistinct`: synthetic IDs are proved distinct within one file only. Two files with the same base name produce the same `_noid_<base>_<n>` keys, and the later one replaces the earlier one's records.
- `Logs.LastAcceptedLineWins`: proved for request IDs that do not start with `_noid_`. A real ID of that form could be overwritten by a later line's synthetic key, as in the code, and the lemma does not cover it.
- `Aggregation.DateRange`: proved under the assumption that no day key is the empty string. The code uses "" to mean "not set yet", and real dates are never empty.
- `Mcp.DetectMCPs`: when several projects share the transcript's slug, or several keys normalize to the same path, Go's map order decides which one is used. The contract allows any of them.
- `Text.Dir`, `Text.JoinPath`: `filepath.Dir` and `filepath.Join` also clean their result (`..`, `.`, repeated slashes). The model only splits and joins at '/'. So an unclean `claudeDir` or `baseDir` gives other plugin and project directories, and the plugin climb may stop elsewhere.
- Token counters (`Usage` fields, bucket sums, `rawCount`) are Go `int`, 64-bit. They are modelled as unbounded integers, so overflow is not modelled.
- `Format.ShortProjectUsersSlug` and `Format.ShortProjectHomeSlug` are proved for all slugs of those shapes. The concrete test rows (format_test.go:51-56) are instances. They are not restated one by one, because unfolding literal strings is costly for the verifier.
- `Format.Truncate` covers the over-long row of format_test.go:60 by its contract. It is not restated as a concrete instance.
- The per-branch view exercised by parser_test.go does not exist in parser.go and is not modelled.
- statusline_test.go calls `formatStatusline` with three arguments and expects the today part to be omitted when it equals the session cost. The code takes four arguments and shows today whenever its cost is positive (statusline.go:96). The model follows the code.
