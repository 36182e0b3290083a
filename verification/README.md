# Proofs about the brain's tooling algorithms

This project models the self-contained algorithms and protocols of the repository's scripts and
commands in Dafny, each in the form it has there, and proves what they are for. Loops that fill
arrays, maps and buffers are methods with loop invariants; each is proved equal to a function of
its inputs, and the properties are lemmas about those functions, for all inputs. What each of these functions means is
proved apart, in modules named `…Meaning`, from the characters, paths, numbers and flags it is about and not through the
function itself. Protocols are
state machines, and their properties hold for every run.

To check everything: `dafny verify --resource-limit 2000000 --verification-time-limit 0 dfyconfig.toml`.

## What is modelled

**The test scheduler** (`Sharding`, `ShardBound`, `ShardMeaning`, `ShardWeights`, `WeightsFile`, `Json`, `JsonMeaning`).
`partition` deals test files to CI shards, heaviest first, each to the lightest shard so far. The
nested loops over `shards` and `totals` are proved to compute the greedy rule, and the rule is
proved to be within Graham's exact factor, 4/3 − 1/(3n), of *every* other way to deal the same
files, for the weights as they were mined. Every CI job runs the partition by itself; the jobs agree because the result does not
depend on the order in which files are listed. The weights are mined from log timestamps by
`computeWeights`, written by `serializeWeights` and loaded by `loadWeights`; reading back what was
written goes through a parser of all of JSON (sections 3, 4, 6 and 7 of RFC 8259).
The code's fallback weight is the 75th percentile; comments that still say "median" are out of date.

**The coverage pipeline** (`Lcov`, `LcovText`, `LcovRoundTrip`, `LcovLaws`, `LcovMeaning`, `CoverageSummary`,
`SummaryMeaning`, `UnifiedDiff`, `DiffMeaning`, `CoverageGate`, `GateMeaning`). The lcov parser and printer, the merge of lanes, the summary
totals, the unified-diff parser and the changed-line gate that joins them. Two round trips are
not unconditional in the code, and are stated exactly:
merged data survives printing and parsing if and only if paths are trimmed and non-empty, no name
holds a line feed and no function name ends in a carriage return (the parser drops one there); and
a diff as git writes it is read right if and only if no file adds lines after an added line that
reads `++ name`, which with its `+` looks like a `+++ ` line, and so in the name of another file.

**Argument vectors** (`Argv`, `ArgvMeaning`, `RunFlags`). `findUnknownOpFlag` walks an operation's arguments with
its own cursor before `parseOpArgs` does. When it reports nothing, the two loops consume the same
tokens if and only if every token they meet is one that `SameReach` admits, a condition on
the token, its successor and the operation alone. Every argument vector is a list of settings, and the parser
gives each the value it is written with. `parseRunFlags` of
`agent run` is proved against a grammar of argument lists: it accepts exactly what the grammar
writes, loses and invents no token, and refuses exactly the lists with a bad flag value.

**A lexer, a glob compiler and a selector** (`Comments`, `CommentsMeaning`, `Globs`, `TestSelection`, `SelectionMeaning`). `stripComments`
keeps every literal, every newline and nothing of any comment, and is idempotent, for all inputs,
those that break off in the middle of a comment or a literal included. `matchGlob` is modelled
through the text of the regular expression it builds, read back by a small pattern grammar. The
documented meaning of `**`, any text, differs from the code's at line breaks; every glob reads a path
as documented if and only if the path has no line break, and a glob reads every path as documented
if and only if it has no `**`.
`selectTests` is fail-closed and monotone.

**Protocols** (`Registration`, `RegistrationProtocol`, `SnapshotLock`, `FollowLogs`). Registering an
agent: exactly when one call registers a client, what it leaves behind and reports otherwise, and what
any interleaving of transactions keeps, which is so if and only if the name lock excludes.
The snapshot builders' lock directory: the code checks the lock's age and removes it in two steps, while
its comments rely on the check to stop the second of two exhausted waiters. The proofs give the exact condition under
which every owner's flag agrees with the directory, also as what a log of the run would show, that
age check and removal in one step meet it, and a run of the code as it stands in which two builders
own the lock. The follow loop prints
each event at most once, in order, and exactly when it is new at first sight; its comment says
`>=` where the code compares with `>`.

**The takes scorer** (`Scorer`, `ScorerMeaning`). Tallies of a classifier's claims by kind, and graduation.

Shared: `Folding` (folds, sums and when order does not matter), `Counting` (sums as sizes of sets), `Sorting` (stable sort, canonical
listings of a map's keys), `Text` (JavaScript's string methods), `Results`.

Sets and maps are iterated in an arbitrary order everywhere; where the code's result does not depend on
it, the method's contract shows so.

## Model

| member | source | states |
|---|---|---|
| Sharding.QuantileIsNearestRank | scripts/sharding.ts:99-108 | At least q of the values are at most the quantile and fewer than q are below it, and for q = 0 none: the nearest-rank meaning. |
| Sharding.ComputeFallback | scripts/sharding.ts:165-175 | The p75 of the map's weights, the same in whatever order the map yields them. |
| Sharding.ArgMinIsLowestLightest | scripts/sharding.ts:188-194 | The inner loop finds the lowest index among the lightest shards. |
| Sharding.FillShards | scripts/sharding.ts:183-198 | The nested loops that update `shards` and `totals` in place compute the greedy rule. |
| Sharding.PartitionFiles | scripts/sharding.ts:135-199 | `partition` with its argument errors, its empty list and its fallback weight. |
| ShardBound.PartitionCovers | scripts/sharding.ts:177-198 | Every file is in exactly one shard, as often as it was listed. |
| ShardBound.PartitionIgnoresOrder | scripts/sharding.ts:116-134 | Listings of the same files in different orders are partitioned identically. |
| ShardBound.JobsTogetherCoverOnce | scripts/sharding.ts:237-270 | n independent jobs, each with its own order of the files and printing its own shard, together print every file once. |
| ShardBound.GreedyBalanced | scripts/sharding.ts:183-198 | At every step, no shard outweighs another by more than its own last file. |
| ShardBound.SpreadAtMostLastFile | scripts/sharding.ts:183-198 | Heaviest total minus any total is at most the last file placed in the heaviest shard. |
| ShardBound.ShardsHeaviestFirst | scripts/sharding.ts:179-198 | Each shard lists its files by non-increasing weight, equal weights by path. |
| ShardBound.ColdStartIsRoundRobin | scripts/sharding.ts:165-175 | With no weights mined, shard sizes differ by at most one. |
| ShardBound.LightestIsLight | scripts/sharding.ts:183-198 | How light the lightest shard must be, from how many placed files are above a weight. |
| ShardBound.RivalPairsLargeFile | scripts/sharding.ts:9-11 | Any other assignment of too many large files must put two of them together. |
| ShardBound.ListSchedulingBound | scripts/sharding.ts:9-11 | n times a shard's total is at most n times any rival's makespan plus n−1 times the shard's last file. |
| ShardBound.LargeLastFile | scripts/sharding.ts:9-11 | When that last file exceeds a third of the rival makespan, the shard is no heavier than the rival's heaviest. |
| ShardBound.LptWithinFourThirds | scripts/sharding.ts:9-11 | For all weights, n and rival assignments, 3n times the makespan is at most 4n−1 times the rival's. |
| ShardBound.PartitionWithinFourThirds | scripts/sharding.ts:135-199 | The same of what `partition` returns, its fallback weight included. |
| ShardMeaning.PartitionIsByWeights | scripts/sharding.ts:149-198 | The result is the greedy partition by any weighing that gives each file its mined weight, and every other file the override, the third quartile, or 1 when that is 0. |
| ShardMeaning.PartitionMeans | scripts/sharding.ts:121-199 | For any such weighing: every file once, each shard heaviest first, the spread at most a shard's last file, and the 4/3 bound. |
| ShardMeaning.PartitionRefuses | scripts/sharding.ts:141-162 | The two refusals, exactly. |
| ShardWeights.GroupByJob | scripts/mine-shard-weights.ts:158-168 | Each job's bucket holds that job's events in log order, and only jobs with events have one. |
| ShardWeights.ComputeWeights | scripts/mine-shard-weights.ts:158-186 | Each file's weight is the largest non-negative gap to its successor in some job; files without one have no entry. |
| ShardWeights.AddJob | scripts/mine-shard-weights.ts:171-184 | One job's events raise each weight to the job's largest gap for that file and lower none; the deltas not skipped add up to `Attributed`. |
| ShardWeights.WeightsUnique | scripts/mine-shard-weights.ts:158-186 | That description admits one map only. |
| ShardWeights.InterleavingIrrelevant | scripts/mine-shard-weights.ts:158-168 | Any interleaving of the same per-job sequences gives the same weights. |
| ShardWeights.DeltasTelescopeExactly | scripts/mine-shard-weights.ts:172-182 | The deltas that loop adds up come to last minus first if and only if its timestamps never decrease, and never to less. |
| Json.QuotedReadsBack | scripts/mine-shard-weights.ts:200-200 | Any string, escaped as `JSON.stringify` does, is read back as itself. |
| Json.NumeralReadsBack | scripts/mine-shard-weights.ts:200-200 | A printed natural number is read back as one number token. |
| JsonMeaning.WrittenIsParsed | scripts/sharding.ts:65-69 | Every JSON value, its numbers by the grammar of section 6 of RFC 8259, is parsed from what is written of it, with any white space before its tokens. |
| WeightsFile.LoadWeights | scripts/sharding.ts:56-84 | The loaded map, or which of the three refusals; of members with one name the last counts. |
| WeightsFile.LoadsExactly | scripts/sharding.ts:56-84 | The three refusals exactly; else the value of the last member of each name. |
| WeightsFile.SerializeWeights | scripts/mine-shard-weights.ts:194-201 | The text: the entries assigned in sorted order to a plain object, which drops `__proto__` and lists array indices first. |
| WeightsFile.OwnKeysList | scripts/mine-shard-weights.ts:198-200 | Each key the object keeps has one line. |
| WeightsFile.LinesAreSorted | scripts/mine-shard-weights.ts:188-193 | When no key is an array index the lines come in sorted key order. |
| WeightsFile.ArrayIndicesAre | scripts/mine-shard-weights.ts:198-200 | Array indices are the numerals of the numbers below 2^32 − 1. |
| WeightsFile.RenderIsLines | scripts/mine-shard-weights.ts:200-200 | One line for each entry, indented by two spaces, between two braces. |
| WeightsFile.RenderParses | scripts/mine-shard-weights.ts:198-200 | The text is JSON, and parses to the object's members in order. |
| WeightsFile.LoadOfSerialized | scripts/sharding.ts:56-84 | Loading what was written gives every weight back except `__proto__`'s. |
| WeightsFile.WeightsRoundTripExactly | scripts/sharding.ts:56-84 | The round trip is exact if and only if no weight is filed under `__proto__`. |
| WeightsFile.ProtoIsLost | scripts/mine-shard-weights.ts:198-199 | A weight under `__proto__` alone is written as an empty object, and loads as no weights. |
| Lcov.Coverage.Merge | scripts/merge-lcov.ts:213-226 | One record merged in place: hits summed, function lines lowered, in that file and no other. |
| Lcov.AddListing | scripts/merge-lcov.ts:215-225 | Adding entries whose keys are distinct adds each one's hits to its own key, and touches no other. |
| Lcov.LowerListing | scripts/merge-lcov.ts:217-220 | A function's line becomes the lower of the two. |
| Lcov.MergeOrderIndependent | scripts/merge-lcov.ts:201-226 | Any permutation of any list of records merges to the same data. |
| LcovText.ReadField | scripts/merge-lcov.ts:106-160 | The branches on a record's type read a line as the format's function does. |
| LcovText.ParseLcovText | scripts/merge-lcov.ts:96-169 | The parser's loop with its open record gives the records in order, or reports the file malformed. |
| LcovRoundTrip.EmitEntries | scripts/merge-lcov.ts:235-242 | A map's entries are printed in one order whatever order they are iterated in. |
| LcovRoundTrip.EmitLcov | scripts/merge-lcov.ts:228-248 | The printed text depends on the data alone. |
| LcovRoundTrip.ParseFile | scripts/merge-lcov.ts:96-169 | Reading one file's printed lines appends exactly that file's record, each function name less one final carriage return. |
| LcovLaws.ParseEmitText | scripts/merge-lcov.ts:228-248 | Printed data with trimmed paths and newline-free names is never malformed, and parses to one record a file. |
| LcovLaws.MergeDistinct | scripts/merge-lcov.ts:213-226 | Records of different files each reach their own file and no other. |
| LcovLaws.PrintableRoundTrips | scripts/merge-lcov.ts:96-248 | Printable data, printed, parsed and merged into nothing, is itself again. |
| LcovLaws.OnlyPrintableRoundTrips | scripts/merge-lcov.ts:96-248 | Whatever comes back as it was is printable. |
| LcovLaws.RoundTripExactly | scripts/merge-lcov.ts:96-248 | The round trip holds if and only if the data is printable. |
| LcovLaws.CarriageReturnIsLost | scripts/merge-lcov.ts:109-110 | The round trip fails for a function named `f` and a carriage return. |
| LcovLaws.SelfMergeDoubles | scripts/merge-lcov.ts:330-339 | Merging data with its own printed output doubles every hit count and changes nothing else. |
| LcovLaws.DoublingKeepsCoveredLines | scripts/merge-lcov.ts:330-339 | Doubling leaves the set of covered lines as it was. |
| LcovMeaning.MalformedExactly | scripts/merge-lcov.ts:107-168 | A text is malformed if and only if some line spoils it, given whether a record is open there, or one is open at the end; which lines spoil is spelled out by their prefixes. |
| LcovMeaning.SecondStartSpoils | scripts/merge-lcov.ts:125-127 | A second `SF` before an `end_of_record` spoils the file. |
| LcovMeaning.FilePrints | scripts/merge-lcov.ts:231-246 | A printed file line by line: entries in order, and counters that are the numbers of entries and of those hit. |
| LcovMeaning.FilesAscend | scripts/merge-lcov.ts:230-232 | Files are printed in ascending order of their paths. |
| CoverageSummary.Summarize | scripts/merge-lcov.ts:472-499 | Each directory is the sum of its source files; files and directories both sum to the total; covered is at most lines. |
| SummaryMeaning.DirsAre | scripts/merge-lcov.ts:297-301 | Each source file is counted under `src`, or under the directory below it that holds the file. |
| SummaryMeaning.SummaryCounts | scripts/merge-lcov.ts:472-499 | The totals are the numbers of recorded lines of source files and of those hit, overall and by directory. |
| UnifiedDiff.ParseUnifiedDiff | scripts/coverage-diff-gate.ts:67-87 | The loop with its current file and its growing map entries computes the parse. |
| UnifiedDiff.HeaderReadsBack | scripts/coverage-diff-gate.ts:76-80 | Every hunk header git writes is read back to its new start and count, an omitted count being 1. |
| DiffMeaning.HeadersAre | scripts/coverage-diff-gate.ts:77-80 | A line is a hunk header if and only if it has the pattern's form, counts left out or not; it gives the new start and count. |
| UnifiedDiff.FileDiffExactly | scripts/coverage-diff-gate.ts:67-87 | A file's part is read right, whatever came before, if and only if none of its adding hunks is mistaken for another file's. |
| UnifiedDiff.ParseDiffIsExact | scripts/coverage-diff-gate.ts:67-87 | When no hunk is mistaken, exactly the new-side line numbers of each non-deleted file, in whatever order files and hunks come. |
| UnifiedDiff.ParseDiffExactly | scripts/coverage-diff-gate.ts:67-87 | For every diff git writes, each file once and its added lines ascending, the result is exact if and only if no hunk is mistaken. |
| UnifiedDiff.OneFileExactly | scripts/coverage-diff-gate.ts:67-87 | For a diff of one file the condition is necessary in whatever order its hunks come. |
| UnifiedDiff.NoPlusPlusIsUnmistaken | scripts/coverage-diff-gate.ts:72-74 | The condition holds when no added line reads `++ …`. |
| UnifiedDiff.PlusPlusMisleads | scripts/coverage-diff-gate.ts:72-74 | With one that spells another name, before another adding hunk, the result is wrong. |
| CoverageGate.ParseExemptions | scripts/coverage-diff-gate.ts:98-113 | A path is exempt exactly when some uncommented line names it or, ending in `/`, is a prefix of it. |
| CoverageGate.AddedLinesPartition | scripts/coverage-diff-gate.ts:322-326 | Every added line is exactly one of covered, uncovered and non-executable. |
| CoverageGate.CountLines | scripts/coverage-diff-gate.ts:319-329 | The counting loop finds the covered count and lists the uncovered lines. |
| CoverageGate.Judge | scripts/coverage-diff-gate.ts:285-350 | The verdict over the scoped files in order: no change, infrastructure failure, or the ratio against 0.8 and no file never loaded. |
| GateMeaning.VerdictExactly | scripts/coverage-diff-gate.ts:293-350 | The verdict passes if and only if gated files add a line, all have a record, and 100 times the added lines hit is at least 80 times the executable ones; the infrastructure error and the ungated case likewise. |
| GateMeaning.ExitCodeExactly | scripts/coverage-diff-gate.ts:340-393 | The exit code is 1 exactly when an enforced verdict on sound data fails without the escape hatch. |
| CoverageGate.RaisingHitsNeverFails | scripts/coverage-diff-gate.ts:294-394 | More hits on recorded lines never turn a pass into a failure nor raise the exit code, in every mode. |
| CoverageGate.SelfMergeKeepsVerdict | scripts/coverage-diff-gate.ts:322-350 | Doubled hits leave every verdict as it was. |
| Argv.ParseFlagAt | src/cli.ts:1133-1206 | At a flag, the tokens the parser takes and the parameter it sets. |
| Argv.ParseOpArgs | src/cli.ts:1126-1215 | The parser's cursor loop computes the parameter map, and takes its tokens in the spans of `ParserSpans`. |
| Argv.FindUnknownOpFlag | src/cli.ts:1442-1491 | The validator's cursor loop reports the first flag the operation does not declare, and takes its tokens in the spans of `ValidatorSpans`. |
| ArgvMeaning.SettingsAreParsed | src/cli.ts:1131-1214 | A list of settings, as switches, negations, literals, inline and spaced values and bare words, parses to exactly the values written, the last winning. |
| ArgvMeaning.EveryVectorIsSettings | src/cli.ts:1126-1215 | Every argument vector is such a list. |
| ArgvMeaning.DryRunIsSet | src/cli.ts:1180-1186 | A final bare `--dry-run` sets the switch, whatever comes before it. |
| ArgvMeaning.ReportedExactly | src/cli.ts:1446-1490 | A flag is reported if and only if it is not in lower case, or neither handled elsewhere, nor the negation of a boolean, nor declared. |
| Argv.SameReachIsExact | src/cli.ts:1441-1490 | On one token, the loops consume the same number of tokens if and only if `SameReach` holds. |
| Argv.Lockstep | src/cli.ts:1120-1123 | When the validator reports nothing, both loops visit the same token spans if and only if every token met is one they read alike. |
| Argv.IgnoredTokenTakesNext | src/cli.ts:1441-1452 | Out of step at `--a_b x`: the validator ignores the token, the parser takes two and sets an undeclared key. |
| Argv.ValidatedKeysAreExpected | src/cli.ts:1126-1215 | Then every key set is a declared parameter, a positional, or `json`, `dry_run` or `source`. |
| RunFlags.ParseRunFlags | src/commands/agent.ts:197-236 | The leading-zone loop and the popping loop compute the parse, or the first usage error. |
| RunFlags.WrittenIsParsed | src/commands/agent.ts:180-196 | Every list written as settings, escape, prompt and trailing switches is parsed to exactly their meaning. |
| RunFlags.ParsedIsWritten | src/commands/agent.ts:180-196 | Whatever is accepted is such a list: no token is lost, invented or moved out of order. |
| RunFlags.AcceptsExactly | src/commands/agent.ts:197-236 | A list is accepted if and only if it can be so written. |
| RunFlags.RefusesExactly | src/commands/agent.ts:165-179 | Refused, with that complaint, if and only if after good settings a flag's value is missing, flag-shaped or no number. |
| RunFlags.EscapedPromptIsVerbatim | src/commands/agent.ts:194-236 | After an explicit `--` nothing is hoisted, whatever the prompt holds. |
| RunFlags.LeftmostTrailingSwitchWins | src/commands/agent.ts:231-235 | Among trailing switches the leftmost decides whether to follow; any `--detach` detaches. |
| RunFlags.RightmostLeadingSwitchWins | src/commands/agent.ts:204-224 | Among leading switches the rightmost does. |
| RunFlags.ValuesFill | src/commands/agent.ts:210-216 | Each flag that takes a text fills its own field and no other. |
| RunFlags.NumbersFill | src/commands/agent.ts:212-214 | The two numeric flags likewise. |
| RunFlags.SwitchesSet | src/commands/agent.ts:217-219 | What the three switches and `--` do in the leading zone. |
| RunFlags.NoNumberIsRefused | src/commands/agent.ts:173-179 | A numeric flag without a number is refused. |
| RunFlags.NumeralsAreRead | src/commands/agent.ts:174-174 | `parseInt` reads a numeral up to its last digit. |
| Comments.SkipLineComment | scripts/generate-flag-registry.ts:211-216 | The loop over a line comment stops at its newline, or at the end. |
| Comments.ScanLiteral | scripts/generate-flag-registry.ts:224-236 | The loop over a literal skips escapes and stops at the closing quote, or where the literal breaks off. |
| Comments.StripComments | scripts/generate-flag-registry.ts:207-242 | The scanner's output is the rendering of the tokens of its input. |
| Comments.LexIsTokenization | scripts/generate-flag-registry.ts:207-242 | The tokens cut the text up whole, each of its own kind; only the last may break off. |
| Comments.LexOfStrip | scripts/generate-flag-registry.ts:200-206 | Scanning the output finds exactly the tokens kept. |
| Comments.StripKeepsLiterals | scripts/generate-flag-registry.ts:200-206 | The literals of the output are those of the input, in order and unchanged; no comment is left. |
| Comments.StripIsIdempotent | scripts/generate-flag-registry.ts:207-242 | Stripping twice is stripping once. |
| Comments.StripKeepsNewlines | scripts/generate-flag-registry.ts:211-223 | The output has as many newlines as the input. |
| Comments.StripOnlyRemoves | scripts/generate-flag-registry.ts:207-242 | The output is a subsequence of the input. |
| CommentsMeaning.LiteralKept | scripts/generate-flag-registry.ts:226-236 | Between two single quotes, double quotes or backticks, any body of escaped pairs and other characters is kept whole. |
| CommentsMeaning.BrokenLiteralKept | scripts/generate-flag-registry.ts:231-234 | A string not closed on its line is kept to the end of the line, and no further. |
| CommentsMeaning.OpenLiteralKept | scripts/generate-flag-registry.ts:229-234 | A literal never closed is kept to the end. |
| CommentsMeaning.CodeKept | scripts/generate-flag-registry.ts:238-239 | Every other character is kept, but for a `/` that begins a comment. |
| CommentsMeaning.LineCommentDropped | scripts/generate-flag-registry.ts:214-217 | A line comment is dropped, its newline kept. |
| CommentsMeaning.BlockCommentDropped | scripts/generate-flag-registry.ts:218-225 | Of a block comment the newlines are kept. |
| CommentsMeaning.OpenBlockCommentDropped | scripts/generate-flag-registry.ts:219-220 | One that is never closed takes the rest. |
| Globs.MatchGlob | scripts/select-e2e.ts:99-125 | The loop that builds the pattern, and its answer: the glob's meaning, or a refusal of `?`, `[` and `{`. |
| Globs.TestAccepts | scripts/select-e2e.ts:124-124 | Matching atom by atom accepts exactly the texts that fall into pieces for the atoms. |
| Globs.CompiledPattern | scripts/select-e2e.ts:105-123 | The compiled text reads back as the glob's own atoms: every special character is escaped. |
| Globs.GlobMeaning | scripts/select-e2e.ts:97-125 | On every path the pattern accepts exactly what the glob means, `**` stopping at line breaks. |
| Globs.DocumentedMeaning | scripts/select-e2e.ts:97-98 | The documented meaning is never narrower, and the same for a path without line breaks or a glob without `**`. |
| Globs.PathReadAsDocumented | scripts/select-e2e.ts:97-125 | Every supported glob reads a path as documented if and only if the path has no line break. |
| Globs.GlobReadAsDocumented | scripts/select-e2e.ts:97-125 | A glob reads every path as documented if and only if it has no `**`. |
| Globs.LineBreaksDiffer | scripts/select-e2e.ts:110-112 | The glob `**` does not match a line break, which its documented meaning does. |
| TestSelection.Classify | scripts/select-e2e.ts:146-152 | Empty, documentation only, or source. |
| TestSelection.LookUp | scripts/select-e2e.ts:177-183 | One file's covering and mapped tests, in whatever order the map is iterated, or the glob error. |
| TestSelection.SelectTests | scripts/select-e2e.ts:154-194 | The nested loops with their early returns compute the selection. |
| TestSelection.SourceSelectsSomething | scripts/select-e2e.ts:189-190 | A source change that does not force the full set selects some test: the last fallback is never taken. |
| TestSelection.UncoveredRunsEverything | scripts/select-e2e.ts:184-186 | One uncovered path that is no document and no test runs every test. |
| TestSelection.SelectionIgnoresOrder | scripts/select-e2e.ts:154-194 | The selection depends on which files changed, not on their order or repetition. |
| TestSelection.SelectionIsMonotone | scripts/select-e2e.ts:154-194 | From a non-empty change set, changing more files drops no existing test. |
| TestSelection.EmptySelectsAll | scripts/select-e2e.ts:159-160 | No change selects everything, documentation alone nothing: why monotonicity needs its proviso. |
| SelectionMeaning.SelectionIs | scripts/select-e2e.ts:42-95 | A test is selected, by the paths themselves, if and only if everything runs or some change calls for it. |
| SelectionMeaning.SelectionAscends | scripts/select-e2e.ts:192-193 | The tests come in ascending order. |
| SelectionMeaning.UnsupportedIsReported | scripts/select-e2e.ts:100-104 | A glob with `?`, `[` or `{` is reported exactly when some source is looked up and no path forces the full set. |
| Registration.ParseFederatedRead | src/commands/agent-register.ts:192-203 | Accepted if and only if some part is not blank and all that are not are source ids; then those ids, trimmed, each once, in order. |
| Registration.ResolvedGrantIsDistinct | src/commands/agent-register.ts:286-338 | No preset resolves to a grant with a repeated source. |
| Registration.SnapshotGrantSources | src/commands/agent-register.ts:348-355 | The ids split, with none lost, into workspaces and the rest. |
| Registration.ValidateSourceIds | src/commands/agent-register.ts:440-458 | Passes if and only if every source exists and is not archived; otherwise the first fault in the list. |
| Registration.EnsureWorkspaceSource | src/commands/agent-register.ts:607-647 | Succeeds unless the workspace is archived or dirty, and then leaves a clean, live one and every other source as it was. |
| Registration.Brain.ResolveGrant | src/commands/agent-register.ts:460-491 | Granted if and only if every source to check is live, otherwise the first fault; the grant is distinct, live and contains the write source, and a snapshot holds every live non-workspace source and no other workspace. |
| Registration.Refusal | src/commands/agent-register.ts:433-554 | Nothing refuses a registration if and only if its preset resolves, its sources are live, the columns are there, the name and workspace are free, and no statement fails. |
| Registration.Brain.Register | src/commands/agent-register.ts:528-593 | Refused, for that reason, it changed nothing; otherwise exactly one good client is new, with the write source and the grant its flags ask for, the workspace exists, and the report is a success or, with the client's id, a late failure. |
| Registration.ResolvesAsAsked | src/commands/agent-register.ts:286-338 | When the flags resolve, to which write source and to which grant, from the flags alone. |
| Registration.SourceIdsAre | src/commands/agent-register.ts:308-308 | The texts that are source ids. |
| Registration.RefusesFor | src/commands/agent-register.ts:498-547 | When a brain is too old, a name is taken, or a workspace is in use. |
| Registration.LateFailuresAre | src/commands/agent-register.ts:557-587 | When a committed registration is still reported as failed, and why. |
| RegistrationProtocol.OneTransactionPerName | src/commands/agent-register.ts:532-535 | No two open transactions are after the same name. |
| RegistrationProtocol.StepKeepsInv | src/commands/agent-register.ts:530-554 | Every lock, check, insert, commit, rollback and revocation keeps the invariant. |
| RegistrationProtocol.NamesStayUnique | src/commands/agent-register.ts:87-89 | In every interleaving no two live clients share a name, whatever names the hash confuses. |
| RegistrationProtocol.DerivedWorkspacesStayDistinct | src/commands/agent-register.ts:305-315 | Live clients with derived workspaces never share a write source. |
| RegistrationProtocol.CheckAloneIsNotEnough | src/commands/agent-register.ts:532-534 | When locks do not exclude, a run from the start in which two transactions lock, check, insert and commit the same name. |
| RegistrationProtocol.UniqueExactlyWithLock | src/commands/agent-register.ts:532-535 | Names stay unique in every run if and only if locks exclude. |
| SnapshotLock.StepKeepsOwners | scripts/build-pglite-snapshot.ts:87-126 | A step keeps owners and directory in agreement unless it removes a live lock. |
| SnapshotLock.SafeExactlyWhenHarmless | scripts/build-pglite-snapshot.ts:106-125 | Along any run they agree throughout if and only if every takeover removal is harmless. |
| SnapshotLock.AtMostOneOwner | scripts/build-pglite-snapshot.ts:87-94 | While they agree, no two builders own the lock. |
| SnapshotLock.StepKeepsInv | scripts/build-pglite-snapshot.ts:92-126 | The timing invariant of runs with an atomic takeover. |
| SnapshotLock.AtomicRunsAreSafe | scripts/build-pglite-snapshot.ts:111-125 | With age check and removal in one step and no live holder outlasting a wait window, every run of any number of builders, crashes included, is safe. |
| SnapshotLock.FinishRemovesOwnLock | scripts/build-pglite-snapshot.ts:156-158 | A finishing owner removes the directory it made and disturbs no other. |
| SnapshotLock.SafeExactlyWhenShown | scripts/build-pglite-snapshot.ts:106-125 | With short holds a run is safe if and only if each takeover removes the directory found stale, one older than the run, or one whose maker is gone. |
| SnapshotLock.SplitTakeoverTears | scripts/build-pglite-snapshot.ts:116-124 | As the two steps they are in the code, a run with short holds ends with two owners. |
| SnapshotLock.StaleLockIsTakenOver | scripts/build-pglite-snapshot.ts:106-124 | A waiter past its window, left alone, takes over a crashed builder's lock. |
| FollowLogs.DumpSince | src/commands/agent-logs.ts:65-108 | One poll's loops print the newer events in order and return the new watermark. |
| FollowLogs.RunAgentLogs | src/commands/agent-logs.ts:33-58 | The seeded dump and the polls up to and including the one that sees a terminal status. |
| FollowLogs.PolledExactly | src/commands/agent-logs.ts:45-57 | Without --follow no poll; with it, up to the first terminal status. |
| FollowLogs.PollPrints | src/commands/agent-logs.ts:65-93 | A poll prints exactly the visible events above the watermark, each once, in order. |
| FollowLogs.PrintedOnceInOrder | src/commands/agent-logs.ts:41-58 | Over a whole run no event is printed twice and timestamps never decrease. |
| FollowLogs.PrintedExactlyAtFirstSight | src/commands/agent-logs.ts:77-85 | An event is printed if and only if its timestamp is above the watermark at the poll where it first appears, and at that poll. |
| Scorer.ById | evals/takes-bootstrap/scorer.ts:60-60 | Of several predictions with one id the last counts. |
| Scorer.FindViolations | evals/takes-bootstrap/scorer.ts:78-85 | The nested loops list every claim that matches a forbidden pattern. |
| Scorer.TallyExpected | evals/takes-bootstrap/scorer.ts:87-96 | The loop over expectations adds what each kind is owed and what is met. |
| Scorer.TallyClaims | evals/takes-bootstrap/scorer.ts:98-110 | The loop over claims adds what was predicted and what of it is right; unknown kinds count nowhere. |
| Scorer.ScoreCorpus | evals/takes-bootstrap/scorer.ts:59-145 | The nested loops over tallies compute the report from sums over the corpus. |
| Scorer.TalliesConserve | evals/takes-bootstrap/scorer.ts:66-111 | What is owed does not depend on the predictions; matched is at most expected and precise at most predicted, for every kind. |
| Scorer.OverallCountsEverything | evals/takes-bootstrap/scorer.ts:122-125 | Every expected instance of the corpus is counted under exactly one kind. |
| Scorer.MatchedNeedsRightClaim | evals/takes-bootstrap/scorer.ts:91-110 | A kind with a matched instance has a claim counted as right. |
| Scorer.LostAnswersNeverRaiseRecall | evals/takes-bootstrap/scorer.ts:5-8 | Losing answers leaves what is owed and raises no numerator, so no kind's recall rises. |
| Scorer.LostAnswersNeverRaiseOverallRecall | evals/takes-bootstrap/scorer.ts:5-8 | Nor does overall recall. |
| Scorer.GraduatesExactly | evals/takes-bootstrap/scorer.ts:10-14 | Graduation holds if and only if every case is answered, no claim leaks and every kind clears both bars. |
| Scorer.MalformedBlocksGraduation | evals/takes-bootstrap/scorer.ts:68-74 | Making any case of the corpus malformed blocks graduation. |
| Scorer.GraduatedClearsOverall | evals/takes-bootstrap/scorer.ts:122-144 | Graduated implies overall precision of at least 0.8 and overall recall of at least 0.7. |
| Scorer.CorpusOrderIrrelevant | evals/takes-bootstrap/scorer.ts:59-145 | The order of the corpus changes no tally and no graduation. |
| ScorerMeaning.AnswersAre | evals/takes-bootstrap/scorer.ts:60-75 | The claims of a case are those of the last prediction with its id. |
| ScorerMeaning.TalliesAre | evals/takes-bootstrap/scorer.ts:87-111 | A kind's four numbers, as the sizes of the sets of expectations owed and met, weight range included, and of claims made and right. |
| ScorerMeaning.GraduationAsks | evals/takes-bootstrap/scorer.ts:10-14 | Graduation if and only if every case is answered and quiet, and each kind is right in 80 and met in 70 of 100. |
| ScorerMeaning.OffRangeIsNotMet | evals/takes-bootstrap/scorer.ts:92-94 | An expectation matched only outside its weight range is not met. |
| ScorerMeaning.ViolationsAre | evals/takes-bootstrap/scorer.ts:78-85 | A violation is listed for every claim that matches a pattern its case forbids, and no other. |
| ScorerMeaning.OverallIs | evals/takes-bootstrap/scorer.ts:122-125 | Each overall number is the sum over the four kinds. |

## Left out

- I/O, processes, environment variables, clocks, the database and its token exchange are parameters: lists of changed files, texts, statuses, and arbitrary successes or failures.
- Milliseconds, hits and line numbers are integers, ratios exact fractions; the gate's 1e-9 slack, rounding, and the scorer's `f1` are not modelled.
- Strings are sequences of Unicode scalar values. Order is by scalar value where JavaScript compares UTF-16 code units, and escapes of surrogates in JSON are refused.
- LcovText.ParseLcovText: leaves out the parser's warnings; `Number` on a field is a parameter, constrained only to read integers as they are printed.
- WeightsFile.LoadWeights: leaves out fractional weights; the missing file, which loads as no weights, is read outside.
- CoverageSummary.Summarize: leaves out the percentages, the list of files never loaded and the sorted copies of line hits.
- CoverageGate.Judge: leaves out the printed table.
- UnifiedDiff.ParseDiffExactly: paths that git prints in quotes, and paths that begin or end in white space, are outside the diffs considered.
- Argv.Lockstep: parameter names are identifiers, so contain no `=`; keys that JavaScript objects inherit are part of the map `params`.
- Argv.ParseOpArgs: leaves out the warning when a flag overwrites a positional value.
- Argv.FindUnknownOpFlag: leaves out spelling suggestions and the sibling `findUnknownFlag`, which has no cursor of its own to keep in step.
- RunFlags.ParseRunFlags: integers are unbounded where `parseInt` yields a double.
- Globs.MatchGlob: the regular-expression engine is modelled on the patterns a glob compiles to, by a grammar of their texts and of what they accept.
- Registration.Brain.Register: leaves out scopes, surface tiers, token lifetimes and the reissue lane; the outcome of a commit is known; one call runs alone, so that a granted source, checked before the transaction, is still live at the commit, where another process could have archived it in between.
- RegistrationProtocol.NamesStayUnique: a check sees every committed row, as it does under the lock at read-committed isolation; it is assumed that everything else that writes the client table only revokes, while src/core/oauth-provider.ts:472 inserts clients without the name lock.
- SnapshotLock.AtomicRunsAreSafe: a builder that found a live lock at its deadline goes on without the lock; what it writes is not modelled, so neither are torn snapshots.
- FollowLogs.RunAgentLogs: leaves out the transcript tail, and that `localeCompare` and `>` could order timestamps differently; ISO timestamps of one format are integers here.
- Scorer.ScoreCorpus: pattern matching is an arbitrary predicate, so patterns that do not compile are not modelled.
- `segmentDispatchBlocks`, `imbalanceRatio`, `computeMedian`, `pctOf`, `normalizeSf`, `parseLog` and the lane manifests are left out: they would add only easy members.
- The dispatch, help and connection code of the command line, the fan-out of `agent run`, the ranking evaluations and every generator of documents are left out.
