# cc-statusline-rs, modelled in Dafny

`cc-statusline-rs` prints the one-line status bar of an AI coding session. It reads a JSON
snapshot of the session and prints:

- the working directory;
- the git branch with ahead/behind, dirty and stash markers;
- the open pull request and its CI checks;
- the model;
- the share of the context window in use;
- the session duration and its cost.

Answers from `git` and `gh` are kept in a per-session cache file under `/tmp`, with a
time to live (TTL) per slot.

This project models the logic of `src/lib.rs` and proves properties of it. Reading stdin,
files, subprocesses and the clock are replaced by parameters.

| file | module | models |
|---|---|---|
| `wrappers.dfy` | `Wrappers` | `Option` |
| `ansi.dfy` | `Ansi` | the ANSI colour codes, as opaque constants |
| `text.dfy` | `Text` | the parts of Rust's `str` API the program uses: `starts_with`, `contains`, `split(..).nth(n)`, `split(c)`, `join`, `trim`, `lines`, `parse::<i32>`, integer printing |
| `transcript.dfy` | `Transcript` | transcript lines as parsed records; `get_context_pct` (a loop); `get_session_duration` (two scans); `parse_timestamp` |
| `cost.dfy` | `Cost` | `calculate_session_cost` (a loop accumulating the total); the threshold of `format_cost` |
| `git_status.dfy` | `GitStatus` | `get_git_status` (appends to a mutable string) |
| `pr_checks.dfy` | `PrChecks` | the grouping of checks into a map of lists and the rendering of segments inside `get_pr_status` |
| `cache.dfy` | `Cache` | `SessionCache`/`CachedValue`. `get_cache_path`, `read_cache`, `write_cache`, `is_cache_valid`. The class `CacheStore` holds the cache files and provides `get_pr`, `get_pr_status`, `fetch_git_info` and the git-info block of `statusline` as methods. |
| `display.dfy` | `Display` | the pure display expressions of `statusline`: repository name, worktree branch marker, PR part, the ordered join of non-empty components, and the final line |

Each operation that changes state is a method. Its `ensures` ties it to a specification
function: `ContextPctOf`, `SpanOf`/`DurationOf`, `SessionCost`, `ChecksText`,
`PrUrlLookup`, `PrStatusLookup`, `GitInfoLookup` or `Bulleted(NonEmpty(..))`. Lemmas then
state what the source promises about those functions.

The cache file store is a `map` from path to file. A file is either a stored
`SessionCache` or `Corrupt`. A missing or corrupt file reads as the empty cache.

## Model

| member | source | states |
|---|---|---|
| Cache.CachePath | src/lib.rs:548-550 | the cache path is `/tmp/` + id + `.json` and is exactly 10 characters longer than the id |
| Cache.CachePathInjective | src/lib.rs:548-550 | two session ids with the same cache path are equal, so sessions never share a file |
| Cache.ReadAfterWrite | src/lib.rs:552-571 | after `write_cache`, `read_cache` of that session returns the written cache, and every other session reads what it read before |
| Cache.ValidityWindow | src/lib.rs:573-582 | a slot is valid iff it is present and `now < stamp + ttl` (given `stamp <= now`); an empty slot is never valid |
| Cache.TtlBoundary | src/lib.rs:573-582 | an entry stamped T is still valid at T+ttl-1 and no longer valid at T+ttl |
| Cache.PayloadRoundTrip | src/lib.rs:464-467 | for key and payload without a bar character, the stored form (key, bar, payload) starts with the key, and its second bar-separated piece is the payload |
| Cache.FreshSlotHits | src/lib.rs:429-433 | a slot written for `key` at `stamp` answers `key` with its payload at every `now` in [stamp, stamp+ttl) |
| Cache.StaleOrForeignSlotMisses | src/lib.rs:428-435 | an empty slot, an expired slot, or one whose value does not start with the key is a miss |
| Cache.PrefixKeyCollision | src/lib.rs:431 | the key test is a prefix test: a fresh URL stored for branch `feature` is returned for branch `feat` |
| Cache.MissTouchesOnlyItsSlot | src/lib.rs:424-471 | `get_pr` and `get_pr_status` write nothing exactly on a hit. A miss returns the fetched value (empty on failure) and writes the cache with only the looked-up slot replaced by key, bar, value stamped `now`; the other two slots stay as read |
| Cache.BarInBranchCorruptsUrl | src/lib.rs:426-434 | for a branch `a` bar `b` the URL is stored as `pr_url_a` bar `b` bar `<url>`, and a fresh lookup for that branch answers `b` |
| Cache.PrUrlServedWithinTtl | src/lib.rs:424-471 | a URL fetched at `stamp`, even an empty one, is returned from the cache with no write by every lookup for the same branch before stamp+60, when the branch and the URL hold no bar |
| Cache.PrUrlRefetchedAfterTtl | src/lib.rs:428-468 | from stamp+60 on, `get_pr` asks `gh` again and stores the new URL stamped `now` |
| Cache.PrStatusServedWithinTtl | src/lib.rs:763-854 | a checks status fetched at `stamp` is served from the cache for 30 seconds when the branch and the check names are free of bar characters |
| Cache.GitInfoRoundTrip | src/lib.rs:136-138 | the git info stored at line 754 (key `git_<dir>`, branch, gitdir and url joined by bars) splits into at least four parts, and parts 1..3 give back (branch, gitdir, url) when none holds a bar |
| Cache.GitInfoServedWithinTtl | src/lib.rs:123-154 | git info fetched for a session at `stamp` is returned from the cache, with no git call and no write, for 5 seconds, when the dir and the fetched branch, git dir and URL hold no bar |
| Cache.GitKeyCollision | src/lib.rs:125-138 | the git-info key is a prefix test: info cached for dir `/ab` is returned for a lookup of `/a` while fresh |
| Cache.CacheStore.WriteCache | src/lib.rs:566-571 | the session's file now holds the cache; all other files are unchanged |
| Cache.CacheStore.GetPr | src/lib.rs:424-471 | returns `PrUrlLookup`'s result on the cache as read, and the files change only by writing that lookup's cache, on a miss |
| Cache.CacheStore.GetPrStatus | src/lib.rs:763-854 | returns `PrStatusLookup`'s result; it is built by the `AggregateChecks` method and trimmed; files change only on a miss |
| Cache.CacheStore.FetchGitInfo | src/lib.rs:738-761 | branch is output line 3 and git dir line 2 ("" when missing), the URL is the remote output; the cache is written only when there is a session id |
| Cache.CacheStore.LookupGitInfo | src/lib.rs:123-154 | returns `GitInfoLookup`'s result. A session id means its cache; none means the empty cache. A miss writes the cache only with a session id |
| Transcript.ContextTimestampOfParsed | src/lib.rs:376-382 | the seconds `get_context_pct` compares agree with `parse_timestamp` (lines 638-646): for a string they are its milliseconds floored to whole seconds (1000*s <= ms < 1000*s + 1000), for an integer the same value, and 0 where `parse_timestamp` gives None |
| Transcript.Window | src/lib.rs:352-357 | the window is the last min(50, n) lines |
| Transcript.Latest | src/lib.rs:359-391 | the chosen index, when there is one, is a line with timestamp, usage and role `assistant` |
| Transcript.LatestIsFirstMaximum | src/lib.rs:359-391 | nothing is chosen iff no candidate has a timestamp > 0. Otherwise the chosen candidate has the greatest timestamp and is the first among equals |
| Transcript.LatestStep | src/lib.rs:384-387 | one more line replaces the choice exactly when it is a candidate stamped strictly later than the current best (initially 0) |
| Transcript.ShownMatchesPercent | src/lib.rs:411-418 | the shown figure has one decimal exactly when min(100, used*100/160000) >= 90, and is that value rounded to its last digit; it never exceeds 100. It is 100.0 from 160000 tokens on |
| Transcript.ShownMonotone | src/lib.rs:411-418 | more tokens never show a smaller percentage |
| Transcript.NinetyPercentBoundary | src/lib.rs:414-418 | 144000 tokens show `90.0` and 143840 tokens show `90` |
| Transcript.ContextPct | src/lib.rs:341-422 | `"0"` without a readable transcript. Otherwise the percentage of the usage `Latest` picks in the last-50-line window, or `"0"` when it picks nothing |
| Transcript.NonBlank | src/lib.rs:592 | the kept lines are lines of the transcript and none is blank |
| Transcript.NonBlankAppend | src/lib.rs:592 | the filter works line by line: filtering a concatenation is concatenating the filtered parts |
| Transcript.NonBlankSingleton | src/lib.rs:592 | a single line is dropped exactly when it is blank; with `NonBlankAppend` this says the result is the non-blank lines in their order |
| Transcript.FirstStamped | src/lib.rs:601-609 | the first line with a timestamp: it has one, no earlier line has one, and None means no line has one |
| Transcript.LastStamped | src/lib.rs:611-619 | the last line with a timestamp: it has one, no later line has one, and None means no line has one |
| Transcript.FirstStampedNotAfterLast | src/lib.rs:598-621 | there is a first stamped line exactly when there is a last one, and it is not after it |
| Transcript.ScanFirstStamped | src/lib.rs:601-609 | the forward scan finds `FirstStamped` |
| Transcript.ScanLastStamped | src/lib.rs:611-619 | the backward scan finds `LastStamped` |
| Transcript.SessionSpan | src/lib.rs:591-622 | the span is `SpanOf`. It is None with fewer than two non-blank lines, with no stamped line, or when the first or last stamp does not parse; otherwise it is last minus first |
| Transcript.SessionDuration | src/lib.rs:585-636 | None without a readable transcript; otherwise the span rendered by `FormatDuration` |
| Transcript.FormatDurationMeaning | src/lib.rs:621-634 | under a minute (negative spans included) shows `<1m`; under an hour shows `{m}m`; otherwise `{h}h{m}m` with h = ms/3600000 and m = (ms mod 3600000)/60000 |
| Transcript.ShortTranscriptHasNoDuration | src/lib.rs:592-596 | fewer than two non-blank lines give no duration |
| Transcript.SingleStampIsUnderMinute | src/lib.rs:621-631 | when exactly one line bears a (parsable) timestamp, the span is 0 and shows `<1m` |
| Cost.CalculateSessionCost | src/lib.rs:650-727 | the result is `SessionCost`: None without a transcript or a model id, for an unpriced model, or when the total is not positive; otherwise the sum of the per-line costs. A returned cost is positive |
| Cost.TotalCostAppend | src/lib.rs:660-720 | the total over a concatenation is the sum of the two totals |
| Cost.TotalCostCommutes | src/lib.rs:660-720 | the order of two parts of the transcript does not change the total |
| Cost.TotalCostPartition | src/lib.rs:660-720 | the total is additive over any split of the lines into two ordered parts |
| Cost.TotalCostNonNegative | src/lib.rs:660-720 | with non-negative rates the total is never negative |
| Cost.UsageCostNonNegative | src/lib.rs:704-714 | with non-negative rates one message costs at least its input tokens' share, which is not negative |
| Cost.UnknownModelHasNoCost | src/lib.rs:655 | a model missing from the price table never yields a cost |
| Cost.ChargedLineMakesCostPositive | src/lib.rs:684-726 | with non-negative rates, one assistant line with usage whose message costs something makes the cost present and at least that message's cost |
| Cost.ChargedInputMakesCostPositive | src/lib.rs:684-726 | in particular a charged line with input tokens at a positive input rate makes the cost present |
| Cost.FreeTranscriptHasNoCost | src/lib.rs:672-726 | when every charged line's message costs 0 (so also with no charged line, or only zero usage), the total is 0 and `calculate_session_cost` gives None even for a priced model |
| Cost.NothingChargedCostsNothing | src/lib.rs:684-716 | a line that is not an assistant message with usage adds 0, and so does a message whose four counts are 0 |
| Cost.CostDecimals | src/lib.rs:729-735 | `format_cost` uses three decimals exactly when the cost is below 0.01 and two otherwise, never another count |
| Cost.OneTurnExample | src/lib.rs:704-716 | 1000 input and 500 output tokens at $3 and $15 per million cost 0.0105, shown with two decimals |
| GitStatus.UpTo | src/lib.rs:486 | `split(..).next()` is the longest prefix without a stop character: a prefix holding no stop character, followed by a stop character or the end of the input |
| GitStatus.PositiveCount | src/lib.rs:486-488 | a count is present exactly when the text parses as an i32 greater than 0, and then it is that value, between 1 and 2^31-1 |
| GitStatus.GitStatusFragment | src/lib.rs:473-517 | the fragment is, in order: ` ⇡A` for a positive ahead count, ` ⇣B` for a positive behind count (both only from a `##` first line), ` *` iff there is more than one status line, and ` ≡` iff the stash list is non-empty |
| GitStatus.TrackingLineRoundTrip | src/lib.rs:480-501 | for a `##` header without `[` in which `behind ` does not occur, even completed by the following space, the line `<head> [ahead A, behind B]` gives back A and B (positive i32 values) |
| GitStatus.AheadOnlyRoundTrip | src/lib.rs:480-501 | for a `##` header without `[` in which `behind ` does not occur, even completed by the following space, `<head> [ahead A]` gives back A and no behind count |
| GitStatus.BehindOnlyRoundTrip | src/lib.rs:480-501 | for such a header, `<head> [behind B]` gives back B and no ahead count |
| GitStatus.AheadOfTrackingLine | src/lib.rs:484-486 | on a line whose header has no `[`, the text after `[ahead ` and up to `,` is the ahead digits |
| GitStatus.BehindOfTrackingLine | src/lib.rs:493-495 | on such a line whose header (with its space) does not hold `behind `, the text after `behind ` and up to `]` is the behind digits |
| GitStatus.BehindTagInUpstreamName | src/lib.rs:493-495 | when the upstream name ends in `behind`, as in `## x...origin/behind [ahead 1, behind 2]`, the ahead count is read but the behind count is lost: the piece after the first `behind ` is `[ahead 1, `, which does not parse |
| GitStatus.CountsNeedHeader | src/lib.rs:481-482 | a first line not starting with `##` yields neither count |
| PrChecks.Names | src/lib.rs:792-805 | a bucket never holds more names than there are checks |
| PrChecks.NamesStep | src/lib.rs:804 | one more check extends exactly its own bucket's list, by its name |
| PrChecks.NamesSnoc | src/lib.rs:804 | appending a check extends exactly its own bucket's list |
| PrChecks.GroupChecks | src/lib.rs:788-806 | a bucket is a key of the map iff some check falls in it, and its list is that bucket's names in input order |
| PrChecks.AggregateChecks | src/lib.rs:788-838 | the untrimmed status is `ChecksText`: fail, pending and pass segments, each only when its bucket is present |
| PrChecks.OtherBucketIgnored | src/lib.rs:807-837 | a check in a bucket other than fail, pending or pass leaves the fragment unchanged |
| PrChecks.NamesRespectBuckets | src/lib.rs:793-804 | the fragment depends on each check only through its bucket and name |
| PrChecks.MissingBucketIsPending | src/lib.rs:793-797 | a check without a bucket renders exactly as one with bucket `pending` |
| PrChecks.BucketSizes | src/lib.rs:791-805 | the three shown buckets together hold at most all checks, and exactly all when every bucket is known |
| PrChecks.NamedSegmentShape | src/lib.rs:808-832 | a non-empty fail or pending segment opens with the count (only for more than one check), `:` and the first min(3, n) names joined by commas, and ends with `...` exactly when there are more than three names, then a reset and a space |
| PrChecks.ExampleNames | src/lib.rs:792-805 | in a fail/none/pass/skipping list the check without a bucket is pending and the skipped one is in no shown bucket |
| PrChecks.ChecksTextExample | src/lib.rs:807-837 | that list renders as `✗:<f>`, `○:<p>`, `✓1` in this order, without counts for single checks |
| PrChecks.ChecksTextExcludesBar | src/lib.rs:807-837 | names free of bar characters give a fragment free of them, so `get_pr_status` can cache it |
| Display.LastPieceIsTail | src/lib.rs:157-160 | `split(sep).next_back()` is a suffix of the input, and is either all of it or preceded by `sep` |
| Display.SplitSnoc | src/lib.rs:157-160 | a separator followed by text without one adds that text as the last piece |
| Display.RepoNameMeaning | src/lib.rs:157-162 | a URL without a `.git` suffix is returned whole; otherwise the name is the last path segment less `.git`, holds no `/`, and is preceded by `/` or starts the URL |
| Display.RepoNameOfGitUrl | src/lib.rs:157-162 | `<anything>/<name>.git` names the repository `name` |
| Display.WorktreeLabelRoundTrip | src/lib.rs:303-310 | in a worktree the branch shows as `↟` alone iff it equals the directory name; the label always ends in `↟`, and the branch can be read back from the label and the shown path |
| Display.WorktreeNameOfShownPath | src/lib.rs:305 | the shown path `<parent>/<name> ` names the worktree `name` |
| Display.PrDisplayShape | src/lib.rs:237-256 | the PR part is empty iff URL and status both are; otherwise it starts with the URL and ends with the status and a reset |
| Display.NonEmpty | src/lib.rs:259-288 | the kept components are no more than the candidates, and none is empty |
| Display.NonEmptyAppend | src/lib.rs:259-288 | dropping empty candidates distributes over concatenation |
| Display.NonEmptyKeepsFull | src/lib.rs:259-288 | non-empty candidates are all kept, in order |
| Display.JoinedIsBulleted | src/lib.rs:290-298 | `" • " + join(" • ")` of a non-empty list and "" of an empty one puts exactly one bullet before every component |
| Display.BuildComponents | src/lib.rs:258-298 | the components string is the bullets of the non-empty candidates in the order PR, model, context, summary, duration, cost |
| Display.BulletedAppend | src/lib.rs:290-298 | the bullets of two lists are the bullets of the first, then of the second |
| Display.EmptyCandidateDropped | src/lib.rs:259-298 | an empty candidate leaves no trace (no doubled bullet) |
| Display.FormatLine | src/lib.rs:300-332 | the final line ends with the components string |
| Display.BranchPartOfLine | src/lib.rs:300-325 | inside a repository the line ends with the bracketed branch label and status followed by the components; outside a worktree the label is the branch itself |

## Left out

- Reading stdin and JSON (`read_input`, serde): transcript lines are already-parsed records (`Transcript.Line`). Cache files are `Stored(cache)` or `Corrupt`. The snapshot fields are parameters.
- File I/O: `read_cache`, `write_cache`, `fs::read_to_string` and `Path::exists` are modelled as the `CacheStore.files` map. An unreadable transcript is `None`. A failed write (ignored by the source) is not modelled: writes always succeed.
- Subprocesses (`exec_git`, `is_git_repo`, `gh`): their outputs are parameters. `exec_git` returns trimmed stdout, or "" on failure. `gh pr list` is `Option<string>` (None on failure). `gh pr checks` is `Option<seq<Check>>`, None when it fails or is not a JSON array.
- PR checks when `gh` fails: `gh pr checks` is documented to exit non-zero when a check fails or is pending, and `get_pr_status` parses its output only when the exit status is success (src/lib.rs:784). In the model a `Some` list with fail or pending entries stands only for a run where `gh` exited 0; that exit-status behaviour is `gh`'s and is not part of this model.
- The clock: `now` is a parameter. `is_cache_valid` subtracts in u64, which underflows (and panics in debug builds) for a stamp later than `now`. The model requires `stamp <= now` (`NotAfter`) instead.
- Two clock reads: `get_pr`, `get_pr_status` and `fetch_git_info` read the clock once inside `is_cache_valid` (src/lib.rs:575-578) and again after the `gh`/`git` call to stamp the new entry (src/lib.rs:460-463, 844-847, 749-752). The model uses one `now` for both, so an entry is stamped with the time of the lookup, not the slightly later time after the fetch.
- RFC 3339 parsing (chrono): a caller-supplied partial function giving epoch milliseconds. `get_context_pct` uses seconds, i.e. the floor of that over 1000.
- f32/f64 arithmetic and `{:.N}` formatting: percentages are exact integer ratios rounded half up, and costs are exact reals. `format_cost` is kept only as its decimal-count threshold (`CostDecimals`).
- Transcript.ShownMatchesPercent: states exact half-up rounding of the exact ratio; the f32 product and `round()` of the source can differ from it by one unit of the last digit near a rounding boundary.
- Cost.CalculateSessionCost: float rounding of the running sum is not modelled, so "additive over partitions" holds for the exact model only.
- The `MODEL_PRICING` table: a `map` parameter. `OneTurnExample` uses the published Sonnet rates.
- Colour choice for the context figure, the cost and the model name, and the ANSI codes: colours are opaque constants, and `BuildComponents` takes the finished display strings.
- `HOME` and the `display_dir` construction (`replace(home, "~")`, short mode): `display_dir` is a parameter of `FormatLine` and `BranchLabel`. `RepoName` is only used there.
- The session summary slot is always "" in the source. It is kept as a parameter of `BuildComponents`, and `EmptyCandidateDropped` shows an empty slot leaves no trace.
- Cross-process races on the `/tmp` cache file, and `get_cache_path` not sanitising the session id (`CachePathInjective` holds for the strings as given).
- `from_utf8_lossy`: outputs are already strings.
- u64 token sums and i64 span subtraction overflow: integers are unbounded. Stamps outside i64 are rejected by `ParseTimestamp`, as `as_i64` does.
- `main.rs` and `src/main.rs`: argument wrappers around `statusline`; `src/main.rs` calls `statusline` with one argument while the library takes two.
- Method structure: `GroupChecks` is the first loop of `get_pr_status`. `ScanFirstStamped`, `ScanLastStamped` and `SessionSpan` are parts of `get_session_duration`. Each is its own method so that each proof stays small.
- Git status shows a single dirty marker ` *`, as the code does; there are no per-kind counts.
- Session duration needs two non-blank lines, as the code checks, not two parsable records.
- Behind count: the tracking line is cut at the first `behind `, as written; `BehindTagInUpstreamName` shows that an upstream branch named `.../behind` loses the behind count.
- PR and git-info lookups: an entry is matched with a prefix test, as written. There is no exact-key invalidation; `PrefixKeyCollision` (branch `feature` answers `feat`) and `GitKeyCollision` (dir `/ab` answers `/a`) show the consequence.
- Bars in cached fields: the program joins a key and its fields with `|` and reads them back with `split('|')`. A bar in a branch name (git allows it), a directory or a fetched field corrupts the cached value, which is then served wrong until the TTL runs out; `BarInBranchCorruptsUrl` shows one case. The lemmas that a value is served back (`PrUrlServedWithinTtl`, `PrStatusServedWithinTtl`, `GitInfoServedWithinTtl`) hold only for bar-free fields.
