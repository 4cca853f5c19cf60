# Karma and CodeCover coverage plugins for Jenkins — a Dafny model

This project models the checkable core of two Jenkins plugins. The Karma plugin and its
CodeCover twin read coverage reports after a build, archive them and attach a build action
holding four coverage ratios. From those ratios and per-metric thresholds they compute a
0–100 health score. A dashboard portlet aggregates the ratios of many jobs by build date.

The modules follow the plugin's classes:

- `Thresholds` models `KarmaHealthReportThresholds`. It is a class with eight integer fields.
  `ensureValid` clamps each metric's max into [0, 100] and then its min into
  [0, clamped max].
- `RatioParser` and `ReportScan` model `ratioFinder` and `loadRatios`.
  - `RatioParser` reads the `N / M` text between the first `(` and the first `)` of a
    trimmed `<small>` line.
  - `ReportScan` puts each ratio into the first free of four array slots, and stops
    reading once the fourth slot is filled.
- `KarmaBuildAction` models `KarmaBuildAction`:
  - the health score, which is the worst metric's score;
  - the ordered deficiency messages;
  - both `load` overloads;
  - the backwards search for the previous result.
- `CoverageSummary` models the portlet bean `KarmaCoverageResultSummary`: four running sums,
  the list of contributing results, and the averages.
- `ChartSpec` is a value-level specification of the date-bucketed aggregation. `LoadData` is
  the imperative version over heap buckets, proved to represent that specification.
  - `LoadData` is generic in the build action.
  - `KarmaLoadData` and `CodeCoverLoadData` supply each plugin's extraction of the four
    percentages.
- `ProjectAction` models `getLastResult`, which is identical in both project actions.
- `Publishing` models both publishers:
  - the `includes` split;
  - the legacy report search;
  - archive naming and saving;
  - the "no reports" result decision;
  - the default maximum thresholds.
- `Builds`, `Text` and `Wrappers` model host values:
  - builds, results and ratios;
  - Java's `trim`, `indexOf`, `contains` and decimal rendering and parsing;
  - an `Option` type.

The host is passed in explicitly:

- Builds are values: a job is a name and its builds, oldest first, each with a day number,
  a result and an optional action.
- The workspace is a record of functions: existence, the directory test and the glob
  listing.
- `Ratio.getPercentage` and `getPercentageFloat`, the rounding helper, the pattern
  matcher and `Utils.getLastDate` are parameters.

## Model

| member | source | states |
|---|---|---|
| Thresholds.ApplyRange | src/main/java/hudson/plugins/karma/KarmaHealthReportThresholds.java:36-40 | The result lies in [min, max] whenever min ≤ max. A value already in range is returned unchanged; below min gives min; above max gives max. |
| Thresholds.Range.Clamp | src/main/java/hudson/plugins/karma/KarmaHealthReportThresholds.java:42-51 | One metric after ensureValid satisfies 0 ≤ min ≤ max ≤ 100. Max is applyRange(0, max, 100). Min is kept when it is in [0, clamped max]; otherwise it is pulled to 0 or to the clamped max. |
| Thresholds.Limits.Clamped | src/main/java/hudson/plugins/karma/KarmaHealthReportThresholds.java:42-51 | After clamping, all four metrics satisfy the invariant. |
| Thresholds.ClampValidIsIdentity | src/main/java/hudson/plugins/karma/KarmaHealthReportThresholds.java:42-51 | Clamping a valid metric changes nothing. |
| Thresholds.ClampFixedPoints | src/main/java/hudson/plugins/karma/KarmaHealthReportThresholds.java:42-51 | A metric is left unchanged by clamping if and only if it is valid. |
| Thresholds.ClampedIdempotent | src/main/java/hudson/plugins/karma/KarmaHealthReportThresholds.java:42-51 | A second ensureValid changes no field. |
| Thresholds.ClampedValidIsIdentity | src/main/java/hudson/plugins/karma/KarmaHealthReportThresholds.java:42-51 | Thresholds that already satisfy the invariant are left unchanged. |
| Thresholds.MaxClampedBeforeMin | src/main/java/hudson/plugins/karma/KarmaHealthReportThresholds.java:43-50 | Min is bounded by the clamped max, not the raw one: (120, 150) becomes (100, 100), although applyRange(0, 120, 150) is 120. |
| Thresholds.HealthReportThresholds.Default | src/main/java/hudson/plugins/karma/KarmaHealthReportThresholds.java:21-22 | The no-argument constructor leaves all eight fields at 0, which is valid. |
| Thresholds.HealthReportThresholds.constructor | src/main/java/hudson/plugins/karma/KarmaHealthReportThresholds.java:24-34 | The eight-argument constructor stores the clamped arguments, so the invariant always holds. |
| Thresholds.HealthReportThresholds.EnsureValid | src/main/java/hudson/plugins/karma/KarmaHealthReportThresholds.java:42-51 | The fields become the clamped old fields and satisfy the invariant. |
| Thresholds.HealthReportThresholds.SetMinLine | src/main/java/hudson/plugins/karma/KarmaHealthReportThresholds.java:57-59 | Only minLine changes; the other seven fields keep their values. |
| Thresholds.HealthReportThresholds.SetMaxLine | src/main/java/hudson/plugins/karma/KarmaHealthReportThresholds.java:65-67 | Only maxLine changes. |
| Thresholds.HealthReportThresholds.SetMinStatement | src/main/java/hudson/plugins/karma/KarmaHealthReportThresholds.java:73-75 | Only minStatement changes. |
| Thresholds.HealthReportThresholds.SetMaxStatement | src/main/java/hudson/plugins/karma/KarmaHealthReportThresholds.java:81-83 | Only maxStatement changes. |
| Thresholds.HealthReportThresholds.SetMinFunction | src/main/java/hudson/plugins/karma/KarmaHealthReportThresholds.java:89-91 | Only minFunction changes. |
| Thresholds.HealthReportThresholds.SetMaxFunction | src/main/java/hudson/plugins/karma/KarmaHealthReportThresholds.java:97-99 | Only maxFunction changes. |
| Thresholds.HealthReportThresholds.SetMinBranch | src/main/java/hudson/plugins/karma/KarmaHealthReportThresholds.java:105-107 | Only minBranch changes. |
| Thresholds.HealthReportThresholds.SetMaxBranch | src/main/java/hudson/plugins/karma/KarmaHealthReportThresholds.java:113-115 | Only maxBranch changes. |
| RatioParser.SplitRatio | src/main/java/hudson/plugins/karma/KarmaBuildAction.java:288 | A text accepted as `\d+ / \d+` is exactly two non-empty digit strings joined by " / ". |
| RatioParser.SplitRatioComplete | src/main/java/hudson/plugins/karma/KarmaBuildAction.java:288 | Every pair of non-empty digit strings joined by " / " is accepted, and the two numerals are recovered. |
| RatioParser.ParseNumeral | src/main/java/hudson/plugins/karma/KarmaBuildAction.java:257-262 | Integer.parseInt succeeds exactly on non-empty digit strings whose value fits in an int, and then returns that value. |
| RatioParser.RatioFinder | src/main/java/hudson/plugins/karma/KarmaBuildAction.java:284-293 | substring throws (None) exactly when the bounds are out of order or out of range. Otherwise the result is the substring when it matches the ratio format, and the mismatch message when it does not. |
| RatioParser.FormatMismatchIsNotRatio | src/main/java/hudson/plugins/karma/KarmaBuildAction.java:289 | The mismatch message is itself neither a ratio nor a number, so it yields (-1, -1). |
| RatioParser.ParseRatio | src/main/java/hudson/plugins/karma/KarmaBuildAction.java:254-263 | The result is (-1, -1) or a pair of ints in [0, 2^31-1]; it is never an error. |
| RatioParser.ParseRatioRoundTrip | src/main/java/hudson/plugins/karma/KarmaBuildAction.java:254-263 | Parsing the text "n / d" gives back (n, d) whenever both fit in an int. |
| RatioParser.ParseRatioOverflow | src/main/java/hudson/plugins/karma/KarmaBuildAction.java:254-263 | A numeral that overflows an int yields (-1, -1). |
| RatioParser.ParenRatio | src/main/java/hudson/plugins/karma/KarmaBuildAction.java:249-263 | A trimmed line fails exactly when its first `)` is not after its first `(` (no `)`, or `)` before `(`). Otherwise it yields (-1, -1) or an int pair. |
| RatioParser.ExtractRatio | src/main/java/hudson/plugins/karma/KarmaBuildAction.java:247-263 | Trim, then the read between the parentheses. It fails exactly when the trimmed line's first `)` is not after its first `(`. Otherwise the ratio is (-1, -1) or a pair of ints in [0, 2^31-1]. |
| RatioParser.ExtractWithoutCloseParen | src/main/java/hudson/plugins/karma/KarmaBuildAction.java:249-252 | A `<small>` line with no `)` makes substring throw. |
| RatioParser.ExtractCloseBeforeOpen | src/main/java/hudson/plugins/karma/KarmaBuildAction.java:249-252 | A line whose `)` comes before its `(` makes substring throw. |
| RatioParser.ParenRatioBetween | src/main/java/hudson/plugins/karma/KarmaBuildAction.java:249-263 | The ratio read is the parse of the text strictly between the first `(` and the first `)`. |
| RatioParser.ExtractWellFormed | src/main/java/hudson/plugins/karma/KarmaBuildAction.java:249-263 | For `pre(inner)post` the ratio is the parse of `inner`, and (-1, -1) when `inner` is not in the ratio format. |
| RatioParser.ExtractRatioOfReportLine | src/main/java/hudson/plugins/karma/KarmaBuildAction.java:247-263 | A report line `pre(n / d)post` yields exactly Ratio(n, d). |
| Text.TrimStartRemovesOnlyControls | src/main/java/hudson/plugins/karma/KarmaBuildAction.java:247 | The leading characters that trim removes are all at or below U+0020, and the first one it keeps is above it. |
| Text.TrimStart | src/main/java/hudson/plugins/karma/KarmaBuildAction.java:247 | The leading part trim removes: what is left is a suffix of the line, empty or starting above U+0020. |
| Text.TrimEnd | src/main/java/hudson/plugins/karma/KarmaBuildAction.java:247 | The trailing part: what is left is a prefix, empty or ending above U+0020. |
| Text.Trim | src/main/java/hudson/plugins/karma/KarmaBuildAction.java:247 | The trimmed line is no longer than the line, and is empty or has both ends above U+0020. |
| Text.IndexOf | src/main/java/hudson/plugins/karma/KarmaBuildAction.java:249-250 | indexOf gives -1 exactly when the character is absent. Otherwise it gives a position holding the character, with no earlier occurrence. |
| Text.NatToString | src/main/java/hudson/plugins/karma/KarmaPublisher.java:91 | The decimal text of an index is non-empty and all digits. |
| Text.TrimEndRemovesOnlyControls | src/main/java/hudson/plugins/karma/KarmaBuildAction.java:247 | The same for the trailing characters. |
| Text.TrimmedIsUnchanged | src/main/java/hudson/plugins/karma/KarmaBuildAction.java:247 | A line whose two ends are above U+0020 is left as it is. |
| Text.IndexOfFirst | src/main/java/hudson/plugins/karma/KarmaBuildAction.java:249 | indexOf returns the first position of the character, or -1 exactly when it is absent. |
| Text.Contains | src/main/java/hudson/plugins/karma/KarmaBuildAction.java:246 | contains holds exactly when the pattern occurs at some position of the line. |
| ReportScan.FirstFree | src/main/java/hudson/plugins/karma/KarmaBuildAction.java:264-273 | The lowest empty slot: every slot before it is filled. The result is 4 when all four are filled. |
| ReportScan.Scan | src/main/java/hudson/plugins/karma/KarmaBuildAction.java:244-275 | A read that does not throw still has exactly four slots. |
| ReportScan.ScanKeepsFilledSlots | src/main/java/hudson/plugins/karma/KarmaBuildAction.java:264-273 | The reading loop never overwrites a filled slot: each ratio goes into a null slot only. |
| ReportScan.SmallLines | src/main/java/hudson/plugins/karma/KarmaBuildAction.java:246 | Keeps only lines containing `<small>`. |
| ReportScan.ScanSeesOnlySmallLines | src/main/java/hudson/plugins/karma/KarmaBuildAction.java:246 | Dropping every line without `<small>` does not change the outcome. |
| ReportScan.SmallRatiosCount | src/main/java/hudson/plugins/karma/KarmaBuildAction.java:246-263 | A well-formed stream yields exactly one ratio per `<small>` line. |
| ReportScan.SmallRatios | src/main/java/hudson/plugins/karma/KarmaBuildAction.java:246-263 | The readable `<small>` lines' ratios in order: at most one per line. |
| ReportScan.Fill | src/main/java/hudson/plugins/karma/KarmaBuildAction.java:264-273 | Placing ratios slot by slot keeps four slots. |
| ReportScan.FillFull | src/main/java/hudson/plugins/karma/KarmaBuildAction.java:264-273 | Once all slots are filled, further ratios change nothing. |
| ReportScan.FillAppend | src/main/java/hudson/plugins/karma/KarmaBuildAction.java:264-273 | Filling with a + b is filling with a and then with b. |
| ReportScan.ScanWellFormed | src/main/java/hudson/plugins/karma/KarmaBuildAction.java:244-275 | On a well-formed stream, reading equals filling the slots with that stream's `<small>` ratios in order, even with the early break. |
| ReportScan.FillPrefixed | src/main/java/hudson/plugins/karma/KarmaBuildAction.java:264-273 | Starting from slots holding a prefix p, filling yields the first four of p + the new ratios. |
| ReportScan.FillFromEmpty | src/main/java/hudson/plugins/karma/KarmaBuildAction.java:264-273 | From empty slots, the slots hold the first four ratios, and the rest stay null. |
| ReportScan.StopsAfterFourthSlot | src/main/java/hudson/plugins/karma/KarmaBuildAction.java:270-272 | Filling the fourth slot ends the read: later lines, even malformed ones, are not seen. |
| ReportScan.MalformedFailsWhenFull | src/main/java/hudson/plugins/karma/KarmaBuildAction.java:246-252 | A malformed `<small>` line throws even when all slots are already filled (from an earlier stream). |
| ReportScan.PutInFirstFree | src/main/java/hudson/plugins/karma/KarmaBuildAction.java:264-273 | The if-chain writes the ratio into the lowest null slot among 0..3 and changes nothing else. It changes nothing when all four are filled. |
| ReportScan.LoadRatios | src/main/java/hudson/plugins/karma/KarmaBuildAction.java:233-282 | A null or short array is replaced by a fresh one of length 4. Success holds exactly when the specification scan succeeds, and then the first four slots are its result. Slots beyond 4 are untouched. |
| KarmaBuildAction.UpdateHealthScore | src/main/java/hudson/plugins/karma/KarmaBuildAction.java:125-132 | value ≥ max keeps the score; value ≤ min (below max) gives 0; otherwise min(score, 100·(value−min)/(max−min)). The result never exceeds the score and is below 100 whenever value < max. |
| KarmaBuildAction.Score | src/main/java/hudson/plugins/karma/KarmaBuildAction.java:81-114 | Starting from 100, the score after the metric blocks is in [0, 100]. |
| KarmaBuildAction.Deficiencies | src/main/java/hudson/plugins/karma/KarmaBuildAction.java:83-114 | At most one message per block, each a deficiency. |
| KarmaBuildAction.Worst | src/main/java/hudson/plugins/karma/KarmaBuildAction.java:81-114 | The minimum over 100 and the metrics' candidate scores. |
| KarmaBuildAction.StepIsMinWithCandidate | src/main/java/hudson/plugins/karma/KarmaBuildAction.java:83-90 | One block takes the minimum of the running score and that metric's own score. |
| KarmaBuildAction.ScoreIsWorst | src/main/java/hudson/plugins/karma/KarmaBuildAction.java:81-114 | The health score is the worst metric's score, not an average. |
| KarmaBuildAction.ScoreNonIncreasing | src/main/java/hudson/plugins/karma/KarmaBuildAction.java:81-114 | The score never increases from one metric to the next. |
| KarmaBuildAction.AtOrBelowMinForcesZero | src/main/java/hudson/plugins/karma/KarmaBuildAction.java:81-114 | A single applicable metric at or below its min (and below its max) forces the score to 0. |
| KarmaBuildAction.SkippedCheckIsInert | src/main/java/hudson/plugins/karma/KarmaBuildAction.java:83-114 | A metric with a null ratio or a max of 0 adds no message and leaves the score unchanged, wherever it stands. |
| KarmaBuildAction.PerfectIffNoDeficiency | src/main/java/hudson/plugins/karma/KarmaBuildAction.java:83-117 | The score is 100 iff no deficiency message was recorded, iff every applicable metric reaches its max. |
| KarmaBuildAction.Extend | src/main/java/hudson/plugins/karma/KarmaBuildAction.java:83-114 | Each block adds its own step to the score and its own message, in metric order. |
| KarmaBuildAction.BuildAction.constructor | src/main/java/hudson/plugins/karma/KarmaBuildAction.java:48-56 | Stores the four ratios and the thresholds. |
| KarmaBuildAction.BuildAction.GetBuildHealth | src/main/java/hudson/plugins/karma/KarmaBuildAction.java:75-123 | No report when the thresholds are null. Otherwise the thresholds are clamped in place, and the report holds the score and the messages in line, statement, function, branch order, plus "perfect" when the score is 100. |
| KarmaBuildAction.Assess | src/main/java/hudson/plugins/karma/KarmaBuildAction.java:83-90 | One metric block updates the running score and appends its message. |
| KarmaBuildAction.FourChecks | src/main/java/hudson/plugins/karma/KarmaBuildAction.java:81-114 | The four blocks, in order, compute exactly Score and Deficiencies. |
| KarmaBuildAction.ScanStreams | src/main/java/hudson/plugins/karma/KarmaBuildAction.java:225-229 | Threading the slot array through the streams, any malformed stream fails the whole load. |
| KarmaBuildAction.LoadSlots | src/main/java/hudson/plugins/karma/KarmaBuildAction.java:225-230 | With no stream the array stays null and the load fails; otherwise the result has four slots. |
| KarmaBuildAction.SmallRatiosAppend | src/main/java/hudson/plugins/karma/KarmaBuildAction.java:225-229 | The `<small>` ratios of concatenated streams are the concatenation of each stream's ratios. |
| KarmaBuildAction.ScanStreamsWellFormed | src/main/java/hudson/plugins/karma/KarmaBuildAction.java:225-229 | Over well-formed streams, reading fills the slots with all their `<small>` ratios in order. |
| KarmaBuildAction.FirstFourWin | src/main/java/hudson/plugins/karma/KarmaBuildAction.java:225-230 | The action's four ratios are the first four `<small>` ratios across all the streams. |
| KarmaBuildAction.ScanStreamsFailurePersists | src/main/java/hudson/plugins/karma/KarmaBuildAction.java:225-229 | Once one stream fails, the load fails whatever follows. |
| KarmaBuildAction.Load | src/main/java/hudson/plugins/karma/KarmaBuildAction.java:212-231 | Both overloads fail exactly when the slot reading fails. Otherwise they return a fresh action with the four slots and the given thresholds. |
| KarmaBuildAction.PreviousResult | src/main/java/hudson/plugins/karma/KarmaBuildAction.java:191-203 | Returns the action of the nearest strictly earlier build that is not FAILURE and has one, or none. |
| Builds.LatestUsableIndex | src/main/java/hudson/plugins/karma/KarmaBuildAction.java:191-203 | The position of the latest usable build before a position: every later build there is unusable. |
| Builds.LatestUsableAction | src/main/java/hudson/plugins/karma/KarmaProjectAction.java:39-48 | Some iff a non-FAILURE build with an action exists, and the action comes from such a build. |
| Builds.LatestUsableIgnoresLater | src/main/java/hudson/plugins/karma/KarmaBuildAction.java:191-203 | Builds after the start position do not affect the result. |
| Builds.LastSuccessfulIndex | src/main/java/hudson/plugins/karma/portlet/KarmaLoadData.java:219 | The host's last successful build is the latest build no worse than UNSTABLE; all later ones are worse. |
| CoverageSummary.SumAppend | src/main/java/hudson/plugins/karma/portlet/bean/KarmaCoverageResultSummary.java:108-113 | Summing one more value adds it to the sums. |
| CoverageSummary.SumIsComponentwise | src/main/java/hudson/plugins/karma/portlet/bean/KarmaCoverageResultSummary.java:108-113 | Each component of the summed coverage is the sum of that component. |
| CoverageSummary.Average | src/main/java/hudson/plugins/karma/portlet/bean/KarmaCoverageResultSummary.java:134-142 | 0 for an empty list, otherwise the rounded sum divided by the count. |
| CoverageSummary.CoverageResultSummary.constructor | src/main/java/hudson/plugins/karma/portlet/bean/KarmaCoverageResultSummary.java:74-75 | No job, four zero sums, an empty list, consistent. |
| CoverageSummary.CoverageResultSummary.WithValues | src/main/java/hudson/plugins/karma/portlet/bean/KarmaCoverageResultSummary.java:91-98 | Stores the job and the four percentages, with an empty list. |
| CoverageSummary.CoverageResultSummary.AddCoverageResult | src/main/java/hudson/plugins/karma/portlet/bean/KarmaCoverageResultSummary.java:108-118 | Each sum grows by exactly the result's value; the result is appended; the job is unchanged; `this` is returned; consistency is preserved, so after n adds to a fresh bean the sums are the sums of the added values. |
| CoverageSummary.CoverageResultSummary.KarmaCoverageResults | src/main/java/hudson/plugins/karma/portlet/bean/KarmaCoverageResultSummary.java:125-127 | The same list as getCoverageResults. |
| CoverageSummary.CoverageResultSummary.SetJob | src/main/java/hudson/plugins/karma/portlet/bean/KarmaCoverageResultSummary.java:228-230 | Only the job changes. |
| CoverageSummary.CoverageResultSummary.SetCoverageResults | src/main/java/hudson/plugins/karma/portlet/bean/KarmaCoverageResultSummary.java:275-277 | Only the list changes. |
| CoverageSummary.CoverageResultSummary.TotalLineCoverage | src/main/java/hudson/plugins/karma/portlet/bean/KarmaCoverageResultSummary.java:179-187 | 0 with an empty list, otherwise the rounded line sum over the list size. |
| CoverageSummary.CoverageResultSummary.TotalStatementCoverage | src/main/java/hudson/plugins/karma/portlet/bean/KarmaCoverageResultSummary.java:149-157 | The same for statements. |
| CoverageSummary.CoverageResultSummary.TotalFunctionCoverage | src/main/java/hudson/plugins/karma/portlet/bean/KarmaCoverageResultSummary.java:164-172 | The same for functions. |
| CoverageSummary.CoverageResultSummary.TotalBranchCoverage | src/main/java/hudson/plugins/karma/portlet/bean/KarmaCoverageResultSummary.java:134-142 | The same for branches. |
| CoverageSummary.TotalsAreMeans | src/main/java/hudson/plugins/karma/portlet/bean/KarmaCoverageResultSummary.java:134-187 | For a consistent bean each average is the rounded mean of that component over the values of the listed results. |
| ChartSpec.Summarize | src/main/java/hudson/plugins/karma/portlet/KarmaLoadData.java:129-167 | A new date gets a bucket holding just this result. If the job is already in that date's bucket, nothing changes. Otherwise the result is appended and added to the sums. Other dates are untouched. |
| ChartSpec.VisitFrom | src/main/java/hudson/plugins/karma/portlet/KarmaLoadData.java:85-104 | A job's walk visits consecutive builds backwards from the last, all after the cutoff, and stops at the first on or before it. |
| ChartSpec.WalkVisits | src/main/java/hudson/plugins/karma/portlet/KarmaLoadData.java:85-104 | The walk is the fold of summarize over exactly those visited builds. |
| ChartSpec.Coverages | src/main/java/hudson/plugins/karma/portlet/KarmaLoadData.java:141-164 | The values of a bucket's entries, in order. |
| ChartSpec.SummarizeKeepsGood | src/main/java/hudson/plugins/karma/portlet/KarmaLoadData.java:129-167 | Summarize keeps every bucket non-empty, with one result per job and sums equal to the sums of its results. |
| ChartSpec.WalkFromKeepsGood | src/main/java/hudson/plugins/karma/portlet/KarmaLoadData.java:85-104 | A job's walk keeps every key after the cutoff and every bucket good. |
| ChartSpec.WalkJobsKeepsGood | src/main/java/hudson/plugins/karma/portlet/KarmaLoadData.java:85-106 | So does the loop over the jobs. |
| ChartSpec.ChartIsGood | src/main/java/hudson/plugins/karma/portlet/KarmaLoadData.java:81-106 | Every date of the chart is strictly after lastDate − daysNumber; each bucket has at most one result per job, and its sums are the sums of its results. |
| ChartSpec.ChartOf | src/main/java/hudson/plugins/karma/portlet/KarmaLoadData.java:81-106 | Every date bucket of the chart is strictly after lastDate − daysNumber. |
| ChartSpec.SummarizeKeepsEntries | src/main/java/hudson/plugins/karma/portlet/KarmaLoadData.java:141-164 | Existing entries of a bucket are never removed or replaced. |
| ChartSpec.WalkFromKeepsEntries | src/main/java/hudson/plugins/karma/portlet/KarmaLoadData.java:85-104 | Later visits do not remove what earlier visits recorded. |
| ChartSpec.LaterBuildOfTheDayWins | src/main/java/hudson/plugins/karma/portlet/KarmaLoadData.java:141-164 | Of two builds of one job on the same day, the later one (visited first) is the one recorded. |
| ChartSpec.SummarizeCreatesOnlyEntry | src/main/java/hudson/plugins/karma/portlet/KarmaLoadData.java:141-164 | When the job has no result on the date yet, summarize leaves exactly one result of the job there: this build's. |
| ChartSpec.SummarizeKeepsOnlyEntry | src/main/java/hudson/plugins/karma/portlet/KarmaLoadData.java:145-164 | Once the job has its one result on a date, summarize keeps it as the only one. |
| ChartSpec.WalkFromKeepsOnlyEntry | src/main/java/hudson/plugins/karma/portlet/KarmaLoadData.java:85-104 | The rest of the walk keeps it too. |
| ChartSpec.FirstVisitOfTheDayWins | src/main/java/hudson/plugins/karma/portlet/KarmaLoadData.java:85-167 | The general rule, for any chart where the job has no result on date d. Take j, the latest visited build of day d. After the walk, the one result of the job on d is the result of build j. |
| ChartSpec.Insert | src/main/java/hudson/plugins/karma/portlet/KarmaLoadData.java:109 | Inserting into an ascending list keeps it ascending, with the same elements plus the new one. |
| ChartSpec.SortDates | src/main/java/hudson/plugins/karma/portlet/KarmaLoadData.java:109 | The TreeMap's key order: ascending, with the same dates. |
| LoadData.Percent | src/main/java/hudson/plugins/karma/portlet/KarmaLoadData.java:176-199 | A null ratio contributes 0; otherwise its percentage. |
| LoadData.FindJob | src/main/java/hudson/plugins/karma/portlet/KarmaLoadData.java:147-158 | The loop over a bucket's results finds the job iff some listed result has that job name. |
| LoadData.GetResult | src/main/java/hudson/plugins/karma/portlet/KarmaLoadData.java:176-199 | A fresh bean with the job's name and the build's extracted values (zeros without an action). |
| LoadData.NewBucket | src/main/java/hudson/plugins/karma/portlet/KarmaLoadData.java:141-144 | A fresh bucket holding exactly the one result. |
| LoadData.JoinBucket | src/main/java/hudson/plugins/karma/portlet/KarmaLoadData.java:145-163 | The bucket is unchanged when the job is already there; otherwise it grows by exactly this result. |
| LoadData.Summarize | src/main/java/hudson/plugins/karma/portlet/KarmaLoadData.java:129-167 | The HashMap of buckets after the call represents ChartSpec.Summarize of the chart it represented before. The CodeCover copy (KarmaCodeCoverLoadData.java:129-167) is the same member. |
| LoadData.AddNewDate | src/main/java/hudson/plugins/karma/portlet/KarmaLoadData.java:141-144 | A date not yet in the map gets a fresh bucket, the other dates keep theirs, and the map represents ChartSpec.Summarize. |
| LoadData.JoinExisting | src/main/java/hudson/plugins/karma/portlet/KarmaLoadData.java:145-166 | For a date already in the map only that bucket changes, and the map represents ChartSpec.Summarize. |
| LoadData.NewBucketRepresents | src/main/java/hudson/plugins/karma/portlet/KarmaLoadData.java:141-144 | Adding a fresh bucket for a new date keeps the map representing the chart. |
| LoadData.Visit | src/main/java/hudson/plugins/karma/portlet/KarmaLoadData.java:92-102 | One build visit keeps the map representing the chart and the date list equal to its keys. |
| LoadData.WalkJob | src/main/java/hudson/plugins/karma/portlet/KarmaLoadData.java:85-104 | The inner while loop computes ChartSpec.WalkJob on the heap. |
| LoadData.LoadChartDataWithinRange | src/main/java/hudson/plugins/karma/portlet/KarmaLoadData.java:68-113 | Null exactly when the last build date is null (no job has a build). Otherwise the keys are strictly ascending, are exactly the dates of ChartSpec.ChartOf with cutoff lastDate − daysNumber, and each bucket equals that chart's bucket. The CodeCover copy (KarmaCodeCoverLoadData.java:68-113) is the same member. |
| LoadData.ToTreeMap | src/main/java/hudson/plugins/karma/portlet/KarmaLoadData.java:109 | The entries are the map's entries in strictly ascending key order. |
| LoadData.JobEntry | src/main/java/hudson/plugins/karma/portlet/KarmaLoadData.java:214-254 | A job's entry carries its name. It has zeros without a last successful build; otherwise it holds the values extracted from that build's action. |
| LoadData.JobEntries | src/main/java/hudson/plugins/karma/portlet/KarmaLoadData.java:209-258 | Exactly one entry per job, in job order. |
| LoadData.JobEntriesStep | src/main/java/hudson/plugins/karma/portlet/KarmaLoadData.java:214-256 | One more job adds one entry and its values to the sums. |
| LoadData.AddJobResult | src/main/java/hudson/plugins/karma/portlet/KarmaLoadData.java:214-256 | One loop iteration appends a fresh result for the job and adds its values. |
| LoadData.GetResultSummary | src/main/java/hudson/plugins/karma/portlet/KarmaLoadData.java:209-258 | A fresh bean with no job, whose list is one entry per job in order, and whose sums are the sums of those entries. The CodeCover copy (KarmaCodeCoverLoadData.java:209-258) is the same member. |
| KarmaLoadData.ResultCoverage | src/main/java/hudson/plugins/karma/portlet/KarmaLoadData.java:176-199 | Without an action all four are 0; otherwise each is its ratio's percentage, 0 for a null ratio. |
| KarmaLoadData.SummaryCoverage | src/main/java/hudson/plugins/karma/portlet/KarmaLoadData.java:223-252 | The same, with each percentage rounded. |
| CodeCoverLoadData.ResultCoverage | CodeCover-Jenkins-Plugin-master/src/main/java/hudson/plugins/codecover/portlet/KarmaCodeCoverLoadData.java:176-199 | Without an action all four are 0; otherwise statement, branch, loop and condition percentages, 0 for a null ratio. |
| CodeCoverLoadData.SummaryCoverage | CodeCover-Jenkins-Plugin-master/src/main/java/hudson/plugins/codecover/portlet/KarmaCodeCoverLoadData.java:223-252 | The same, rounded. |
| ProjectAction.GetLastResult | src/main/java/hudson/plugins/karma/KarmaProjectAction.java:39-48 | The action of the most recent non-FAILURE build that has one, starting from the last build. None iff no such build exists. The CodeCover copy (KarmaCodeCoverProjectAction.java:39-48) is the same member. |
| Publishing.SkipSpaces | src/main/java/hudson/plugins/karma/KarmaPublisher.java:70 | Skips the `\s*` run of the split pattern. |
| Publishing.SkipSeparators | src/main/java/hudson/plugins/karma/KarmaPublisher.java:70 | Skips the `[;:,]+` run. |
| Publishing.DelimiterAt | src/main/java/hudson/plugins/karma/KarmaPublisher.java:70 | A delimiter match contains at least one of `;:,`. |
| Publishing.DropTrailingEmpty | src/main/java/hudson/plugins/karma/KarmaPublisher.java:70 | String.split drops trailing empty pieces. |
| Publishing.Pieces | src/main/java/hudson/plugins/karma/KarmaPublisher.java:70 | The scan always yields at least one piece. A string the pattern never matches is one piece. |
| Publishing.Split | src/main/java/hudson/plugins/karma/KarmaPublisher.java:70 | The result is the single piece, or nothing, or pieces whose last one is non-empty: trailing empty pieces are dropped. |
| Publishing.SplitJoin | src/main/java/hudson/plugins/karma/KarmaPublisher.java:70 | Take paths that are non-empty, hold no `;:,` and have no blank at either end. Written with " ; " between them, they split back into exactly those paths. |
| Publishing.SplitHasNoSeparator | src/main/java/hudson/plugins/karma/KarmaPublisher.java:70 | No piece of the split contains `;`, `:` or `,`. |
| Publishing.SplitWithoutSeparator | src/main/java/hudson/plugins/karma/KarmaPublisher.java:70 | Without a separator the whole string is the single piece. |
| Publishing.SplitSpacedList | src/main/java/hudson/plugins/karma/KarmaPublisher.java:70 | "a , b;c" splits into a, b, c: separator runs take their surrounding blanks with them. |
| Publishing.SplitSeparatorOnly | src/main/java/hudson/plugins/karma/KarmaPublisher.java:70 | "," gives no piece at all, since trailing empty pieces are dropped. |
| Publishing.SplitLeadingSeparator | src/main/java/hudson/plugins/karma/KarmaPublisher.java:70 | ",a" gives "" and "a": a leading empty piece is kept. |
| Publishing.Contribution | src/main/java/hudson/plugins/karma/KarmaPublisher.java:71-79 | A missing path contributes nothing, a directory its pattern matches, a file itself. |
| Publishing.LegacyAppend | src/main/java/hudson/plugins/karma/KarmaPublisher.java:69-81 | The legacy search is in part order: parts a + b give a's files, then b's. |
| Publishing.MissingPathIsSkipped | src/main/java/hudson/plugins/karma/KarmaPublisher.java:69-81 | A nonexistent path changes nothing. |
| Publishing.LegacyOfMissingPaths | src/main/java/hudson/plugins/karma/KarmaPublisher.java:69-81 | When no listed path exists, the legacy search finds nothing. |
| Publishing.LegacyKeepsFiles | src/main/java/hudson/plugins/karma/KarmaPublisher.java:69-81 | Every listed path that names an existing file is in the result. |
| Publishing.Locate | src/main/java/hudson/plugins/karma/KarmaPublisher.java:56-83 | A non-empty pattern match is returned unchanged. Otherwise the result is the legacy search over the split `includes`. |
| Publishing.LocateReports | src/main/java/hudson/plugins/karma/KarmaPublisher.java:56-83 | The ArrayList-building loop computes Locate. The CodeCover copy (KarmaCodeCoverPublisher.java:56-81) is the same member, with `**/coverage*.xml` for directories. |
| Publishing.ArchiveName | src/main/java/hudson/plugins/karma/KarmaPublisher.java:90-91 | `coverage.xml` for index 0, `coverage<i>.xml` after. The CodeCover copy (KarmaCodeCoverPublisher.java:88-89) is the same member. |
| Publishing.ArchiveNamesDistinct | src/main/java/hudson/plugins/karma/KarmaPublisher.java:90-91 | Distinct indices give distinct names. |
| Publishing.Archive | src/main/java/hudson/plugins/karma/KarmaPublisher.java:88-96 | Every report index has its name in the archive. |
| Publishing.NextNameIsNew | src/main/java/hudson/plugins/karma/KarmaPublisher.java:88-96 | The next copy never overwrites an earlier one. |
| Publishing.ArchiveKeys | src/main/java/hudson/plugins/karma/KarmaPublisher.java:88-96 | Every archived name belongs to some report index. |
| Publishing.ArchiveHoldsEveryReport | src/main/java/hudson/plugins/karma/KarmaPublisher.java:88-96 | The i-th name holds the i-th report. |
| Publishing.ArchiveSize | src/main/java/hudson/plugins/karma/KarmaPublisher.java:88-96 | N reports give exactly N destinations. |
| Publishing.ArchiveFolder.constructor | src/main/java/hudson/plugins/karma/KarmaPublisher.java:130 | A folder not yet created and empty. |
| Publishing.SaveReports | src/main/java/hudson/plugins/karma/KarmaPublisher.java:88-96 | The folder is created and gains exactly the archive of the reports. The CodeCover copy (KarmaCodeCoverPublisher.java:86-94) is the same member. |
| Publishing.EffectiveIncludes | src/main/java/hudson/plugins/karma/KarmaPublisher.java:108-110 | A null or blank `includes` falls back to the plugin's default pattern; otherwise it is used as given. The CodeCover copy (KarmaCodeCoverPublisher.java:105-107) is the same member, with `report.html`. |
| Publishing.NoReportsResult | src/main/java/hudson/plugins/karma/KarmaPublisher.java:116-122 | A build already worse than UNSTABLE keeps its result; any other becomes FAILURE. |
| Publishing.NoReportsIsWorseThanUnstable | src/main/java/hudson/plugins/karma/KarmaPublisher.java:116-122 | After no reports, the build is worse than UNSTABLE and never better than before. |
| Publishing.PublishedBuild.constructor | src/main/java/hudson/plugins/karma/KarmaPublisher.java:98 | A build with its current result and its archive folder. |
| Publishing.Perform | src/main/java/hudson/plugins/karma/KarmaPublisher.java:98-124 | With zero reports the result follows NoReportsResult, nothing is archived and the folder's created flag is unchanged. Otherwise the result is unchanged, the folder is created and the archive gains exactly the located reports. The CodeCover copy (KarmaCodeCoverPublisher.java:96-121) is the same member. |
| Publishing.SetMaxDefaults | src/main/java/hudson/plugins/karma/KarmaPublisher.java:195-206 | A blank max field defaults to line 90, statement 80, function 50, branch 50; every other field is unchanged. The CodeCover copy (KarmaCodeCoverPublisher.java:192-203) is the same member: statement 90, branch 80, loop 50, condition 50. |

## Left out

- File-system and stream I/O. This covers Ant-style glob matching, existence and directory tests, `mkdirs`, `copyTo`, stream reading and closing, and `getKarmaReport`'s directory listing. Workspaces are records of functions, and report streams are sequences of lines.
- The `WeakReference` cache and `synchronized` in `getResult`: they are memoisation and locking with no visible effect on the result.
- Floating point:
  - ratios are integer pairs;
  - `Ratio.getPercentage`, `getPercentageFloat` and `Utils.roundFLoat` are function parameters;
  - coverage values are `real`.
  `KarmaCoverageResultSummary` sums exactly, where the source adds floats.
- `Ratio`, `KarmaCoverageObject` and `Utils.getLastDate` are not part of this model. The last date is a parameter, `None` when the host reports no build.
- The CodeCover bean, build action and thresholds classes are not part of this model:
  - CodeCover loading reuses the Karma bean, storing statement, branch, loop and condition in its four positions;
  - the CodeCover default maxima are set through the same four threshold positions.
- Joda `LocalDate` is a day number; the build timestamp's calendar date is taken as given.
- Messages, `HealthReport` construction and the padding of message arguments are not modelled. Messages are values naming the metric, the ratio and the percentage.
- Display, icon and URL names; `doGraph` (a delegation to the graph of the last result); Stapler form binding; the environment expansion of `includes`; logging.
- The exception that `workspace.list` may throw is the matcher returning `None`, which leads to the legacy search as in the source.
- KarmaBuilderGrid, Rule and KarmaCoverageReport are not part of this model: they have no logic of their own.
- The rest of `perform` after archiving is not modelled: loading the build action, FAILURE on a null action, and UNSTABLE from the rule. It depends on KarmaCoverageReport and the report reading through the host.
- KarmaBuildAction.UpdateHealthScore: requires clamped thresholds (0 ≤ min ≤ max ≤ 100), as every caller passes them after ensureValid. Under that condition the float cast equals integer division.
- The getters of KarmaHealthReportThresholds and the remaining bean setters and getters are plain field reads and writes. They are read through `Current()`, `Values()` and the fields.
- Java `int` width is modelled only where it matters: `Integer.parseInt` overflow gives (-1, -1). Thresholds and scores stay within [0, 100].
- The iteration order of the HashMap's keys is not modelled. The model keeps the keys in an explicit list, which `ToTreeMap` sorts.
- `Job.getLastSuccessfulBuild` is the host's: the latest build no worse than UNSTABLE.
- `Run.setResult` is a direct assignment; the host's rule that a result may only get worse is not modelled, and NoReportsResult never improves the result anyway.
- LoadData.LoadChartDataWithinRange and GetResultSummary: the `Job` and `Run` objects are immutable values. The model therefore does not capture the host changing them concurrently.
- CoverageSummary.CoverageResultSummary.KarmaCoverageResults: the list of results is a sequence value, so the aliasing of the source's ArrayList is not modelled. The getter hands out the summary's own list. A caller can then `add` to it without going through addCoverageResult, which changes the list but not the four sums and so breaks Consistent() from outside.
- CoverageSummary.CoverageResultSummary.SetCoverageResults: for the same reason the stored list is a copy of the argument, not the caller's ArrayList. Later changes through the caller's reference are not modelled.
- Publishing.Legacy and ChartSpec.WalkFrom, WalkJob and WalkJobs are definitions without their own contracts. What they compute is stated by the lemmas about them (LegacyAppend, MissingPathIsSkipped, LegacyOfMissingPaths and LegacyKeepsFiles; WalkVisits, WalkFromKeepsGood, WalkJobsKeepsGood, WalkFromKeepsEntries and FirstVisitOfTheDayWins).
