# GitHub activity dashboard: verified model of the collection and metrics core

The dashboard copies a GitHub repository's pull requests, issues, reviews,
comments and releases into an SQLite store. From that store it computes
dashboard counts over a time window. This project models the core of that
system in Dafny and proves what each part promises:

- **Classifiers** (`Classify`, `Breaking`, `References`, `JsonList`). These
  cover the pull-request type, the issue type, label priority, breaking-change
  detection, issue-reference extraction, and the string-list encoding used for
  labels and assignees.
- **Records and normalisers** (`Records`, `Normalize`). Raw API records are
  mapped to the stored shape. Each stored row is then built with its derived
  columns recomputed.
- **Store** (`Store`). `DatabaseManager` is a class holding one map per table.
  Its upserts are `INSERT OR REPLACE` over the primary key and the UNIQUE key.
  Its reads are:
  - the metadata seeded with `INSERT OR IGNORE`;
  - the filtered and limited pull-request listing;
  - the per-state summary.
- **Sync pipeline** (`Fetcher`, `Pipeline`). `GitHubDataPipeline` has the
  fetch-and-store loops, the additions/deletions refresh and the full sync, in
  its fixed phase order.
- **Metrics** (`Frames`, `Metrics`). The time-window filter turns a table into
  a frame. `MetricsCalculator` computes the following counts over frames:
  - active items;
  - community engagement;
  - throughput;
  - releases and churn;
  - merge and close counts;
  - pull-request sizes;
  - the cumulative backlog trend.

Timestamps are integers (seconds). Tables are maps from row id to row. Every
fetch result is an input: `None` means the request failed, otherwise it is the
list of decoded records. The clock reading `now` is a parameter.

## Model

| member | source | states |
|---|---|---|
| JsonList.Serialize | src/models.py:169-171 | the text is bracketed, and it is `[]` exactly for the empty list |
| JsonList.Deserialize | src/models.py:174-179 | empty text reads back as the empty list |
| JsonList.SerializeRoundTrip | src/models.py:169-192 | deserialising what was serialised gives back the same list of labels or assignees |
| JsonList.SerializeInjective | src/models.py:169-184 | distinct lists are stored as distinct texts |
| Classify.ClassifyPrType | src/models.py:210-233 | a label category wins over the title, taking the earliest of bugfix, feature, docs, maintenance; then a title keyword decides in the same order; otherwise feature |
| Classify.PrTypeLabelsDecide | src/models.py:213-224 | when any label matches a category, the title has no influence on the type |
| Classify.ClassifyIssueType | src/models.py:236-259 | labels first, then title keywords, each taking the earliest of bug, feature, question, documentation; otherwise question |
| Classify.PriorityFromLabels | src/models.py:262-275 | the most urgent matching label wins (critical, high, medium, low); with no match, medium |
| Classify.PrTypeIgnoresCase | src/models.py:212-213 | the type is insensitive to the case of title and labels |
| Classify.IssueTypeIgnoresCase | src/models.py:238-239 | the type is insensitive to the case of title and labels |
| Classify.PriorityIgnoresCase | src/models.py:264 | the priority is insensitive to the case of labels |
| Breaking.CheckedText | src/models.py:280 | the searched text is the lower-cased title, one space and the lower-cased body (empty when null) |
| Breaking.SearchIff | src/models.py:292-293 | a pattern search succeeds iff the pattern matches at some position of the text |
| Breaking.IsBreakingChange | src/models.py:278-295 | a breaking, breaking-change or major label makes the change breaking |
| Breaking.PhraseInTitleIsBreaking | src/models.py:280-294 | a phrase anywhere in the title that spells one of the six patterns, in any case and with any whitespace run the pattern admits, makes the change breaking whatever the body and the labels |
| Breaking.PhraseInBodyIsBreaking | src/models.py:280-294 | the same for a phrase anywhere in the body, whatever the title and the labels |
| Breaking.SpellingIsFound | src/models.py:280-294 | a spelling of a pattern anywhere in a text is found by the search on the lower-cased text |
| Breaking.InstanceIsSpelling | src/models.py:284-291 | each pattern's own lower-case text, with any admissible whitespace run and with or without its optional letter, is a spelling of it |
| Breaking.MatchIsSpelling | src/models.py:284-293 | the matcher is sound: a match of a pattern at the start of a text begins with a spelling of that pattern |
| Breaking.BreakingHasSpelling | src/models.py:278-295 | without a breaking label, a breaking change has a spelling of one of the six patterns somewhere in its checked text |
| Breaking.BreakingIffSpelling | src/models.py:278-295 | breaking iff a breaking label is present or some stretch of the checked text spells one of the six patterns |
| Breaking.NoLetterAIsNotBreaking | src/models.py:280-295 | without a breaking label, a text without the letter a matches none of the six patterns |
| Breaking.BreakingIgnoresCase | src/models.py:280-282 | the verdict is insensitive to the case of title, body and labels |
| References.ExtractIssueNumbers | src/models.py:298-306 | empty text gives no numbers, and every number found consumes at least one `#`; what is captured is stated by References.ExtractsReference and References.ExtractsReferenceAfter |
| References.FindAll | src/models.py:304 | at most one number per `#` in the text |
| References.NoHashNoNumbers | src/models.py:300-306 | a text without `#` references nothing |
| References.FoundNumbersAreMatches | src/models.py:304-305 | every number returned is the one captured by a reference starting at some position |
| References.HashRefOf | src/models.py:303 | after the keyword, any whitespace run (none included), `#` and a digit run not followed by another digit are captured whole; the number is the value of those digits and the match ends right after them |
| References.RefAtForm | src/models.py:303-304 | a keyword alternative followed by whitespace or `#` and a reference is matched as that alternative, because no earlier alternative can match there |
| References.KeywordReference | src/models.py:303-304 | on lower-cased text, any of the eight keyword forms, any whitespace run, `#` and digits not followed by a digit report that number, and scanning resumes right after the digits |
| References.ExtractsReference | src/models.py:298-306 | a keyword written in any case, any whitespace run, `#` and digits not followed by a digit: the result is that number followed by the numbers of the rest of the text |
| References.NoMatchBefore | src/models.py:303-304 | no alternative matches inside `#`-free text that a keyword form and its reference follow, since no keyword form ends another |
| References.ExtractsReferenceAfter | src/models.py:298-306 | a reference anywhere after `#`-free text (such as "This PR fixes #12") gives its number first, followed by the numbers of the rest of the text |
| References.LeadingSpaceSkipped | src/models.py:304 | a leading space never starts a reference, so removing it changes nothing |
| References.TwoReferencesInOrder | src/models.py:300-306 | "Fixes #a CLOSES #b" gives exactly [a, b]: the keyword case is ignored and numbers come in order of appearance |
| Records.PrToRow | src/database.py:74-101 | the row keeps id and number, is stamped with the clock, and its type and breaking columns are recomputed from title, body and labels |
| Records.PrRowRoundTrip | src/database.py:74-131 | reading a stored pull-request row back gives the record that was written |
| Records.PrRowOnlyClockDiffers | src/database.py:82-102 | writing the same pull request at two times differs only in the fetch time |
| Records.IssueToRow | src/database.py:156-178 | the row keeps id and number, and its type and priority columns are recomputed |
| Records.ReviewToRow | src/database.py:236-248 | a review is storable iff it was submitted |
| Records.CommentToRow | src/database.py:261-272 | a comment is storable iff it has a body and exactly one parent number |
| Records.ReleaseToRow | src/database.py:283-297 | the row keeps id, tag and the breaking flag |
| Normalize.ProcessPullRequest | src/data_pipeline.py:143-169 | state is merged iff a merge time is present or the raw state is merged; labels, assignees, id, number and author are kept in order |
| Normalize.ProcessIssue | src/data_pipeline.py:171-190 | the author is external iff the user type is User; there is no assignee login iff there is no assignee |
| Normalize.ProcessReview | src/data_pipeline.py:192-202 | the review carries the pull-request number it was fetched for, and its own id and submission time |
| Normalize.UrlNumberOfDecimal | src/data_pipeline.py:209 | a URL ending in `/` and the decimal text of n yields n, whatever precedes the slash |
| Normalize.ProcessComment | src/data_pipeline.py:204-220 | fails iff the URL does not end in a number; otherwise exactly one of issue and pull-request number is set, to that number, and the type is pr iff the URL contains `pull` |
| Normalize.CommentAttachedToUrlNumber | src/data_pipeline.py:204-220 | a comment whose URL ends in `/n` is attached to n: as a pull request iff the URL contains `pull`, otherwise as an issue |
| Normalize.ProcessReleaseAsWritten | src/data_pipeline.py:222-237 | the release is normalised iff neither name nor body is null |
| Normalize.ProcessRelease | src/data_pipeline.py:222-237 | breaking iff `breaking` occurs in the lower-cased name and body joined with no separator; agrees with the code wherever the code does not raise |
| Normalize.BreakingAcrossNameAndBody | src/data_pipeline.py:236 | the word may straddle name and body: whatever split of "breaking" ends the lower-cased name and starts the lower-cased body, the release is breaking |
| Fetcher.FetchDetailAsWritten | src/github_client.py:20-22 | a single-object answer comes back flattened into its list of keys |
| Fetcher.FetchDetail | src/github_client.py:15-33 | a single-object answer comes back as that object; a failure stays a failure |
| Fetcher.UsableCount | src/data_pipeline.py:53 | at most one counted detail per pull request |
| Fetcher.AsWrittenCountsNothing | src/data_pipeline.py:48-69 | with the flattened answers, no pull request's details are ever applied or counted |
| Fetcher.FixedCountsEveryAnswer | src/data_pipeline.py:48-69 | with objects passed through, every non-empty answer is counted |
| Fetcher.DetailCountDiffers | src/data_pipeline.py:53-65 | one pull request whose answer has additions counts once when fixed, not at all as written |
| Store.SeedDefaults | src/database.py:64-68 | existing metadata keys keep their values, and the key set grows by exactly the default keys |
| Store.SeedFirstValue | src/database.py:64-68 | an absent key takes the value of its first default |
| Store.SeededDefaults | src/database.py:55-68 | a fresh store holds every default, with `last_pr_sync` set to 2020-01-01T00:00:00 |
| Store.SyncKeyInjective | src/database.py:319-326 | different sync types use different checkpoint keys |
| Store.Replace | src/database.py:83-84 | after INSERT OR REPLACE the row sits at its id; every other surviving row is unchanged and differs in key; rows clashing on neither key survive |
| Store.ReplaceUnique | src/models.py:45 | replacing keeps the UNIQUE column unique, and only the new row has its key |
| Store.ReplaceTwice | src/database.py:83-102 | a second replace with the same key and id overrides the first |
| Store.ReplaceAllKeepsLatest | src/database.py:83-102 | after a batch of replaces, the last row written with a given id and key is the stored one |
| Store.PrTableReplaced | src/database.py:76-101 | the pull-request table's id, UNIQUE(number) and derived-column invariant survive an upsert |
| Store.IssueTableReplaced | src/database.py:156-178 | the issue table's id, UNIQUE(number) and derived-column invariant survive an upsert |
| Store.ReleaseTableReplaced | src/database.py:283-297 | the release table's id and UNIQUE(tag_name) invariant survive an upsert |
| Store.UpsertedPrIsOnlyOne | src/database.py:83-102 | after an upsert exactly one row has that number, and it is the new row at its id |
| Store.UpsertPrTwice | src/database.py:82-102 | upserting one pull request twice equals upserting it once at the later time |
| Store.RowLimit | src/database.py:121-123 | a positive limit below the number of matches truncates; otherwise all matches are returned |
| Store.SelectLatest | src/database.py:119-125 | picks n distinct matching ids, newest created first, and no skipped id is newer than a picked one |
| Store.SummaryStep | src/database.py:146-148 | adding one state group keeps the partial summary correct |
| Store.SummaryComplete | src/database.py:143-149 | each state's entry is its row count, and total is the table size |
| Store.DatabaseManager.constructor | src/database.py:18-68 | a new store has empty tables and the seeded metadata |
| Store.DatabaseManager.InitializeMetadata | src/database.py:52-68 | seeds the defaults without touching existing keys or any table |
| Store.DatabaseManager.SeedMetadata | src/database.py:64-68 | INSERT OR IGNORE of each default in order, nothing else changes |
| Store.DatabaseManager.UpsertPullRequest | src/database.py:70-107 | the table becomes the replace of the recomputed row; the invariants are kept; other tables are unchanged |
| Store.DatabaseManager.UpsertIssue | src/database.py:151-185 | the table becomes the replace of the recomputed row; the invariants are kept; other tables are unchanged |
| Store.DatabaseManager.UpsertReview | src/database.py:231-254 | succeeds iff the review was submitted; on failure the table is unchanged |
| Store.DatabaseManager.UpsertComment | src/database.py:256-276 | succeeds iff body and exactly one parent are present (the XOR check); on failure the table is unchanged |
| Store.DatabaseManager.UpsertRelease | src/database.py:278-301 | the table becomes the replace keyed by id and tag; other tables are unchanged |
| Store.DatabaseManager.GetPullRequests | src/database.py:109-133 | returns the rows matching the state filter, limited, distinct, newest first, and none skipped is newer than one returned |
| Store.DatabaseManager.GetPrMetricsSummary | src/database.py:135-149 | the per-state counts of the table, and total equal to their sum |
| Store.DatabaseManager.GetMetadata | src/database.py:303-307 | a value iff the key is present, and then its stored value |
| Store.DatabaseManager.SetMetadata | src/database.py:309-317 | the key now reads the new value, and every other key reads as before |
| Store.CheckpointsIndependent | src/database.py:319-326 | writing one sync type's checkpoint makes it read back as the clock reading and leaves every other sync type's checkpoint as it was |
| Store.DatabaseManager.UpdateLastSyncTime | src/database.py:323-326 | that sync type's checkpoint becomes the clock reading; other checkpoints are unchanged |
| Pipeline.StorePrsKeepsLatest | src/data_pipeline.py:34-37 | the last fetched version of a pull request is the one stored |
| Pipeline.PullRequestsAreNotIssues | src/data_pipeline.py:80-84 | records marked as pull requests never reach the issue table or the count |
| Pipeline.UnsubmittedReviewsIgnored | src/data_pipeline.py:100-104 | unsubmitted reviews are neither stored nor counted |
| Pipeline.ParsedLength | src/data_pipeline.py:119-120 | the comments before the first non-numeric URL all normalise, and that one does not |
| Pipeline.ParsedPrefix | src/data_pipeline.py:119-122 | the comments processed before the loop stops are exactly the normalised prefix |
| Pipeline.StoredCommentsHaveOneParent | src/data_pipeline.py:119-122 | every stored comment has exactly one parent number |
| Pipeline.ReleasePrefix | src/data_pipeline.py:135-139 | the releases the loop gets through as written: each normalised, up to the first whose name or body is null, where it raises |
| Pipeline.ReleasePrefixAgrees | src/data_pipeline.py:222-237 | as written stores a prefix of what the corrected reading stores, and all of it iff no name or body is null |
| Pipeline.NullReleaseAbortsPhase | src/data_pipeline.py:135-139 | a null name or body at position i makes the release phase raise, with at most the i releases before it stored |
| Pipeline.WithDetail | src/data_pipeline.py:53-63 | only additions, deletions, changed files and commits change; a missing field becomes 0 |
| Pipeline.AsWrittenLeavesTable | src/data_pipeline.py:51-65 | with the client as written, visiting the listed pull requests leaves the pull-request table exactly as it was |
| Pipeline.DetailApplied | src/data_pipeline.py:51-63 | among pull requests with distinct ids and numbers, one with a usable answer ends up stored with that answer's sizes, whatever the later ones do |
| Pipeline.DetailKeepsRows | src/data_pipeline.py:62 | visiting pull requests taken from the table drops no row and changes no row's number |
| Pipeline.DetailLeavesRow | src/data_pipeline.py:53-67 | a row that no pull request with a usable answer came from is left as it was |
| Pipeline.DetailsStored | src/data_pipeline.py:43-69 | over the whole table as listed: the same rows stay, usable answers rewrite their pull request's sizes, and every other row is unchanged |
| Pipeline.PhaseKeysAreNotFull | src/data_pipeline.py:38-39 | the phase checkpoints never overwrite the full-sync checkpoint |
| Pipeline.PhasesKeepOtherKeys | src/data_pipeline.py:38-39 | the pull-request and issue phases write only their own checkpoints and totals; every other metadata key, the full-sync checkpoint included, keeps its value |
| Pipeline.GitHubDataPipeline.constructor | src/data_pipeline.py:16-21 | the pipeline holds the store and a non-empty token |
| Pipeline.GitHubDataPipeline.FetchAndStorePullRequests | src/data_pipeline.py:23-41 | an empty or failed fetch stores nothing and writes no checkpoint; otherwise every record is upserted, the count is the list length, and the checkpoint and total are written |
| Pipeline.GitHubDataPipeline.StorePrBatch | src/data_pipeline.py:33-37 | the loop upserts each record in order and counts every one |
| Pipeline.GitHubDataPipeline.FetchAndStoreIssues | src/data_pipeline.py:71-88 | like the pull-request phase, but skipping pull requests and counting only issues |
| Pipeline.GitHubDataPipeline.StoreIssueBatch | src/data_pipeline.py:79-84 | the loop upserts each non-pull-request record in order and counts them |
| Pipeline.GitHubDataPipeline.StoreReviewsOf | src/data_pipeline.py:99-104 | one pull request's submitted reviews are stored and counted |
| Pipeline.GitHubDataPipeline.FetchAndStoreReviewsForAllPrs | src/data_pipeline.py:90-106 | walks every stored pull request once, newest created first, and stores and counts their submitted reviews; only the review table changes |
| Pipeline.GitHubDataPipeline.StoreReviewsOfAll | src/data_pipeline.py:95-104 | the loop over pull-request numbers accumulates the review table and count |
| Pipeline.GitHubDataPipeline.FetchAndStoreComments | src/data_pipeline.py:108-124 | an empty or failed fetch gives 0; a non-numeric URL aborts after storing the prefix before it; only the comment table changes |
| Pipeline.GitHubDataPipeline.StoreParsedComments | src/data_pipeline.py:118-124 | stores the normalised prefix and counts the storable comments, or fails if the list has an unparsable URL |
| Pipeline.GitHubDataPipeline.FetchAndStoreReleases | src/data_pipeline.py:126-141 | an empty or failed fetch gives 0; otherwise the releases before the first null name or body are stored and the phase raises there, or every release is stored and counted; only the release table changes |
| Pipeline.GitHubDataPipeline.StoreReleaseBatch | src/data_pipeline.py:135-141 | the loop as written upserts each release in order until a null name or body raises, and otherwise counts every one |
| Pipeline.GitHubDataPipeline.StoreReleasesReadingNullAsEmpty | src/data_pipeline.py:135-141 | the corrected loop stores and counts every release, a null name or body read as empty text |
| Pipeline.GitHubDataPipeline.FetchAddDelData | src/data_pipeline.py:43-69 | walks every stored pull request once, newest created first, and counts the usable answers; the same rows stay, each pull request with a usable answer is rewritten with that answer's four size fields, every other row is left as it was (via Pipeline.DetailsStored), and only the pull-request table changes |
| Pipeline.GitHubDataPipeline.StoreDetailsOfAll | src/data_pipeline.py:48-65 | the loop applies and counts each usable answer in order |
| Pipeline.GitHubDataPipeline.SyncPrsAndIssues | src/data_pipeline.py:243-244 | the first two phases: both counts, both tables, and the metadata with each phase's checkpoint and total written only when its fetch returned something; the other tables are unchanged |
| Pipeline.GitHubDataPipeline.SyncThroughComments | src/data_pipeline.py:243-246 | the first four phases, in order: every table as those phases leave it, the review phase walking the pull-request table the first phase left, newest first; the comment count is absent when that phase raised |
| Pipeline.GitHubDataPipeline.SyncAllData | src/data_pipeline.py:239-260 | fails iff the comment or the release phase raised; otherwise the six counts. States every final table and the metadata: the full-sync checkpoint becomes now only after all six phases, and otherwise keeps its value |
| Frames.Window | src/metrics_calculator.py:49-71 | column-less iff the table is empty; otherwise the rows in the window, in id order |
| Frames.AllTimeKeepsEveryRow | src/metrics_calculator.py:67-71 | with no day limit, every row is kept |
| Frames.WindowSize | src/metrics_calculator.py:64-71 | the frame has exactly as many rows as the window selects |
| Frames.WindowCount | src/metrics_calculator.py:64-71 | counting a predicate over the frame counts the window rows satisfying it |
| Frames.WindowImage | src/metrics_calculator.py:109-126 | the distinct values of a column are those of the window rows |
| Metrics.Day | src/metrics_calculator.py:190-193 | the day a timestamp falls on, by floor division |
| Metrics.TrendDays | src/metrics_calculator.py:195-200 | strictly increasing days, exactly those on which something opened or closed |
| Metrics.TallyOfCover | src/metrics_calculator.py:200-206 | counting over every day that occurs counts every event once |
| Metrics.TrendRows | src/metrics_calculator.py:200-210 | one row per day, with its opened and closed counts; the last backlog is the cumulative difference |
| Metrics.TrendRowsBacklog | src/metrics_calculator.py:206-210 | each day's backlog is opened minus closed up to that day |
| Metrics.FinalBacklog | src/metrics_calculator.py:200-210 | the last backlog equals total opened minus total closed |
| Metrics.TrendOver | src/metrics_calculator.py:200-210 | the loop builds the trend rows day by day |
| Metrics.Trend | src/metrics_calculator.py:195-210 | empty iff nothing happened; the last backlog is the number opened minus the number closed |
| Metrics.PrClosedDays | src/metrics_calculator.py:192 | one update day per pull request in state closed or merged |
| Metrics.IssueClosedDays | src/metrics_calculator.py:193 | one close day per closed issue that has a close time |
| Metrics.BacklogInputs | src/metrics_calculator.py:184-198 | opened days of every frame row, and closed days of closed or merged pull requests and closed issues |
| Metrics.BacklogInputsAsWritten | src/metrics_calculator.py:184-198 | fails iff one table is empty while the window holds rows of the other; otherwise agrees with the corrected inputs |
| Metrics.Sizes | src/metrics_calculator.py:367 | each size is additions plus deletions of its row |
| Metrics.AuthorsBound | src/metrics_calculator.py:109-126 | a frame has no more distinct logins than rows |
| Metrics.BacklogRaisesWithoutPullRequests | src/metrics_calculator.py:184-189 | with no pull requests but some issues in the window, the code as written fails while the corrected trend counts every issue |
| Metrics.MetricsCalculator.constructor | src/metrics_calculator.py:31-47 | the window starts `days` days before now, or is unbounded when days is None |
| Metrics.MetricsCalculator.BacklogTrendPrs | src/metrics_calculator.py:328-336 | the number of open pull requests in the window |
| Metrics.MetricsCalculator.BacklogTrendIssues | src/metrics_calculator.py:427-435 | the number of open issues in the window |
| Metrics.MetricsCalculator.GetActiveItems | src/metrics_calculator.py:75-92 | open pull requests and open issues of the window; total is their sum; both agree with the backlog counts |
| Metrics.MetricsCalculator.GetCommunityEngagement | src/metrics_calculator.py:94-138 | unique contributors is the size of the union of the four login sets, and never exceeds total engagements |
| Metrics.MetricsCalculator.EngagementCounts | src/metrics_calculator.py:109-133 | contributors are the union of PR authors, issue authors, commenters and reviewers; engagements are the four row counts summed |
| Metrics.MetricsCalculator.GetThroughput | src/metrics_calculator.py:141-154 | closed issues plus merged pull requests of the window |
| Metrics.MetricsCalculator.GetTotalReleases | src/metrics_calculator.py:156-169 | releases of the window, with churn the merged pull requests, never above throughput |
| Metrics.MetricsCalculator.GetPrMergeRate | src/metrics_calculator.py:311-326 | no counts iff the window has no pull requests; otherwise merged of total, merged ≤ total |
| Metrics.MetricsCalculator.GetIssueCloseRate | src/metrics_calculator.py:411-426 | no counts iff the window has no issues; otherwise closed of total, closed ≤ total |
| Metrics.MetricsCalculator.PrSizeDistribution | src/metrics_calculator.py:357-368 | one size per pull request in the window, each its additions plus deletions |
| Metrics.MetricsCalculator.GetBacklogTrend | src/metrics_calculator.py:173-212 | fails (the KeyError) iff one table is empty while the window holds rows of the other; otherwise days strictly increase and the last backlog is everything opened minus everything closed in the window |
| Metrics.MetricsCalculator.BacklogTrendReadingColumnlessAsEmpty | src/metrics_calculator.py:173-212 | the corrected trend: empty iff the window has no rows; days strictly increase; the last backlog is everything opened minus everything closed in the window |

## Left out

- The HTTP client and Link-header pagination (src/github_client.py) are network I/O. Each fetch is an input: `None` for a failed request, otherwise the decoded list. Only how a single-object answer is accumulated is modelled, in `Fetcher`.
- src/cli.py and src/config.py are argument parsing, environment loading and subprocess glue. The incremental sync that src/cli.py calls has no definition in the pipeline, so no incremental or early-stopping sync is modelled.
- SQLite itself is not modelled: connections, transactions, rollback, logging, the DDL text and the indexes. Only the tables' primary keys, UNIQUE columns and the comment XOR check are kept, as class invariants.
- The `days` filter of `get_pr_metrics_summary` and the `datetime("now")` filters in SQL are not modelled. The model summarises the whole table.
- Floating-point metrics are not modelled: the merge and close percentages, medians, durations, first-response times, issue aging, timestamp parsing and the time-to-merge/close helpers. The rate functions return the integer counts the percentage is built from.
- These metrics depend on pandas index labels and column renames, so they are not modelled: `get_release_and_pr_timeline`, `open_issues_type`, `open_issues_aging` and `get_code_churn`. `get_issues` and `get_issue_metrics_summary` are also not part of this model.
- Regular expressions and JSON are hand-written for the patterns and shapes the code uses:
  - the six breaking-change patterns and the issue-reference pattern;
  - JSON arrays of strings, with only `"` and `\` escaped.
- Lower-casing is ASCII only.
- JsonList.Deserialize: text that is valid JSON but not a list of strings reads as the empty list, where the code would return whatever the JSON parser produced.
- Store.DatabaseManager.UpsertPullRequest: always succeeds. The code's only failure is a missing or null field, and the typed records rule that out. The same holds for Store.DatabaseManager.UpsertIssue and Store.DatabaseManager.UpsertRelease.
- Store.DatabaseManager.GetPullRequests: rows with equal creation times may come back in any order, so only the ordering by creation time is promised.
- Pipeline.GitHubDataPipeline.FetchAndStoreReviewsForAllPrs: pull requests created in the same second are walked in an unspecified order, as SQLite leaves ties of `ORDER BY created_at DESC` unordered. The same holds for Pipeline.GitHubDataPipeline.FetchAddDelData.
- Normalize.UrlNumber: a digit is an ASCII `0`-`9`. `int()` also accepts a sign, surrounding whitespace, underscores between digits and any Unicode decimal digit; the model reads such a segment as no number, where the code would accept it.
- References.ExtractIssueNumbers: `\d` matches only ASCII digits, where Python's `\d` matches every Unicode decimal digit, and lower-casing is ASCII only. `\s` is the whitespace set of `str.isspace()`.
- Normalize.ProcessReview: a review without a `submitted_at` key is treated like one whose value is null (not submitted), where `review['submitted_at']` raises KeyError; the GitHub API always sends the key.
- Normalize.ProcessPullRequest, Normalize.ProcessIssue, Normalize.ProcessReview, Normalize.ProcessComment: a missing required key (`id`, `number`, `title`, `state`, the timestamps, `base`/`head` refs, `issue_url`) or a null `user` raises KeyError or TypeError in the code (src/data_pipeline.py:143-217). The call sits outside the upsert's try, so the phase aborts, and sync_all_data then ends before its full-sync checkpoint. The typed raw records always carry these fields and a user, so the model cannot express that abort.
- Store.DatabaseManager.GetPrMetricsSummary: the key order of the returned dictionary is not modelled.
- The token check of the pipeline constructor is a precondition (a non-empty token), not a raised error.
- Wall-clock time is the parameter `now` throughout.

## Findings

| source | as written | input that shows it | evidently intended | confidence | as-written member | corrected member |
|---|---|---|---|---|---|---|
| src/github_client.py:21-22 | a single-object answer is iterated, which flattens it into its list of keys, so the check at src/data_pipeline.py:53 never sees a dictionary | any pull request whose detail answer is `{"additions": 5}` | the object is passed through, and its sizes are stored and counted | not executed | Fetcher.AsWrittenCountsNothing, Pipeline.AsWrittenLeavesTable | Fetcher.FixedCountsEveryAnswer, Pipeline.DetailApplied |
| src/data_pipeline.py:236 | the empty-string default covers only an absent name or body; a null one is lower-cased and raises, aborting the release phase and, uncaught, the rest of the sync with its full-sync checkpoint | a release with `"name": null` | a null name or body is treated as empty text | not executed | Pipeline.NullReleaseAbortsPhase | Normalize.ProcessRelease |
| src/metrics_calculator.py:184-190 | an empty table gives a frame with no columns, so reading `created_at` raises a KeyError when one table is empty and the other has rows in the window | no pull requests stored and one issue in the window | the empty side contributes no days | not executed | Metrics.BacklogRaisesWithoutPullRequests | Metrics.BacklogInputs |
