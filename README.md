# Level-Up Portfolio: progression and activity ledger

This project models the computational core of the Level-Up Portfolio, a
game-styled developer portfolio, in Dafny and proves properties of it.
The core has four parts:

- **Progression** (App.tsx, types.ts). GitHub counters and the difficulty
  weights of the listed projects give an XP score. The score gives a level
  on an inverse-quadratic curve (level L starts at 50·L²), a progress
  percentage within the level, and a skill-rank title.
- **Live merge** (App.tsx, `fetchLiveUpdates`). Push events of the activity
  feed that are newer than the snapshot's `lastUpdated` are folded into the
  day-indexed history and the commit total. The watermark advances only
  when something was applied.
- **Month calendar** (components/CommitHeatmap.tsx). A constant 42-cell grid
  is built from leading padding, one cell per day of the month with its
  count and a 0–4 intensity tier, and trailing padding. The view also
  carries the month total and the online flag.
- **Snapshot builder** (scripts/update-stats.js). It builds a 60-day
  zero-filled window and folds push, create and pull-request events into
  it. The day map is listed as a date-sorted history. The script also
  derives the commit total and the monthly-streak flag.

Modules:

| module | file | contents |
|---|---|---|
| `Types` | `types.dfy` | records and the difficulty table |
| `Ledger` | `ledger.dfy` | history operations shared by the three consumers, and feed events |
| `Calendar` | `calendar.dfy` | month lengths, `YYYY-MM-DD` keys, text order |
| `Curve` | `curve.dfy` | score, level and rank |
| `LiveMerge` | `live_merge.dfy` | the live merge |
| `Heatmap` | `heatmap.dfy` | the calendar grid |
| `UpdateStats` | `update_stats.dfy` | the snapshot script |

Modelling choices:

- XP weights are exact, kept in hundredths of a point: commit 10, repository
  500, star 20, Easy 1, Medium 3, Hard 6, Nightmare 10.
- Timestamps are integer milliseconds.
- The network replies, the clock and the existing snapshot file are
  parameters. In particular the key of "the day i days ago" is the function
  `isoDaysAgo`, and "now" and the weekday of the first of the month are
  plain inputs.
- The imperative parts are methods with loops, each proved equal to a
  specification function: the merge loop, the three grid loops, the window
  loop, the event `forEach`, the star accumulator and the map listing.
  Lemmas then prove what the source promises about those functions.

Where the code and its description differ, the model follows the code:

- The code's `calculateLevel` returns 1 (not the lowest level 0) for a
  negative score.
- The difficulty tiers are Easy / Medium / Hard / Nightmare, with weights
  0.01 / 0.03 / 0.06 / 0.1. The score uses these unscaled weights; the
  ×1000 scaling appears only in each project card's display (App.tsx:221,
  App.tsx:274), which is presentation and not modelled.
- The progress value is a percentage clamped to [0, 100], not a fraction in
  [0, 1].
- A non-finite score is not clamped: `calculateLevel(NaN)` is NaN, because
  `NaN < 0` is false and `Math.sqrt(NaN)` is NaN (App.tsx:106-107). A NaN
  score arises when a snapshot field such as `totalRepos` is missing. The
  model's score is an integer, so this case is outside it (see "## Left out").

## Model

| member | source | states |
|---|---|---|
| Types.DifficultyTableIsTotal | types.ts:53-58 | the weight table has exactly the four keys of the difficulty union, so every difficulty has a weight |
| Types.DifficultyXp | types.ts:53-58 | the lookup `DIFFICULTY_XP[d]` always hits and gives between 1 and 10 hundredths |
| Types.DifficultyXpIncreasing | types.ts:10 | every weight is positive, and a harder tier weighs strictly more |
| Curve.CurrentXp | App.tsx:430-437 | the score is the floor of the exact weighted sum (bracketed between xp·100 and (xp+1)·100 hundredths), and it is non-negative for non-negative counters |
| Curve.ProjectsXpBounds | App.tsx:434 | the project bonus lies between one and ten hundredths per project |
| Curve.PortfolioProjectsXp | App.tsx:55-92 | the four listed projects (Hard, Nightmare, Medium, Easy) total 0.20 XP, which floors to zero on its own |
| Curve.CurrentXpMonotone | App.tsx:430-437 | the score never drops when a counter grows or projects are added |
| Curve.Isqrt | App.tsx:107 | r is the integer square root: r² ≤ n < (r+1)² |
| Curve.IsqrtFromQuarter | App.tsx:107 | the square root of n follows from that of n / 4 |
| Curve.Level | App.tsx:105-108 | a negative score gives level 1; otherwise 50·L² ≤ xp < 50·(L+1)² |
| Curve.LevelBracket | App.tsx:110-116 | the current-level and next-level thresholds bracket the score |
| Curve.LevelUnique | App.tsx:105-116 | any level whose bracket holds the score is the computed level, so the level is the largest L with 50·L² ≤ xp |
| Curve.LevelAtZero | App.tsx:105-108 | a score of 0 is level 0 |
| Curve.LevelMonotone | App.tsx:105-108 | the level never decreases as a non-negative score grows |
| Curve.LevelGap | App.tsx:110-116 | a level's bracket is 50·(2L+1) wide, so it is never zero for L ≥ 0 |
| Curve.XpProgress | App.tsx:439-442 | the progress lies in [0, 100]; for xp ≥ 0 it is the exact unclamped share of the bracket and below 100; for a negative score it is 0 |
| Curve.SkillRankIsHighestReached | App.tsx:127-134 | the rank is the highest title whose threshold (20/40/60/75/90) the level reaches, and Novice otherwise |
| Curve.SkillRankMonotone | App.tsx:127-134 | a higher level never earns a lower rank |
| Curve.SkillRank | App.tsx:127-134 | no contract of its own; `Curve.SkillRankIsHighestReached` and `Curve.SkillRankMonotone` state that it gives the highest rank reached and never decreases |
| Curve.XpForNextLevel | App.tsx:110-112 | no contract of its own; `Curve.LevelBracket`, `Curve.LevelUnique` and `Curve.LevelGap` state that it is the strict upper bound of the level's bracket, 50·(2L+1) above its base |
| Curve.XpForCurrentLevel | App.tsx:114-116 | no contract of its own; `Curve.LevelBracket` and `Curve.LevelUnique` state that it is the lower bound of the level's bracket and that the bracket determines the level |
| Curve.BaselineExample | App.tsx:430-442 | 100 commits, 5 repositories and 10 stars score 37 with or without the projects, at level 0 whose next threshold is 50 |
| Ledger.CommitCount | App.tsx:397 | a push counts its payload size when non-zero, and 1 otherwise |
| Ledger.FindDay | App.tsx:402 | finds the first entry with the date, with no earlier match; None exactly when no entry has it |
| Ledger.DatePrefix | App.tsx:401 | the key is the longest prefix of the timestamp text without a 'T', ending just before the first 'T' |
| Ledger.DatePrefixOfTimestamp | scripts/update-stats.js:62 | the key of a date-time "date"+"T"+"time" is its date |
| Ledger.SumCountsAppend | scripts/update-stats.js:101 | the history sum is additive over concatenation |
| LiveMerge.FetchLiveUpdates | App.tsx:386-419 | the loop computes exactly the specified merge (`Merged`) of the snapshot and the feed |
| LiveMerge.AddToDay | App.tsx:402-407 | an existing day keeps the length of the history; a new date is appended at the end as {date, count} |
| LiveMerge.AddToDayShape | App.tsx:402-407 | existing entries keep their dates and entries of other dates are unchanged; at most one entry is appended, only for a date the history lacked; the date is present afterwards |
| LiveMerge.AddToDaySum | App.tsx:404-406 | a day update adds exactly the commit count to the history sum |
| LiveMerge.AddToDayUnique | App.tsx:402-407 | a day update keeps the dates unique |
| LiveMerge.AddToDayCounts | App.tsx:402-407 | with unique dates, a day update adds the count to that date and leaves every other entry as it was |
| LiveMerge.ApplyEventsSum | App.tsx:392-409 | the counted pushes add exactly `newCommits` to the sum of the history |
| LiveMerge.ApplyEventsUnique | App.tsx:392-409 | the merge keeps the history's dates unique |
| LiveMerge.ApplyEventsKeepsOrder | App.tsx:388-409 | every existing entry keeps its position and date, and its count never shrinks |
| LiveMerge.NothingCountedNoChange | App.tsx:396 | events that are not newer pushes add no commits and leave the history as it was |
| LiveMerge.NewCommitsPositive | App.tsx:396-398 | `newCommits` is positive exactly when some event is a push newer than the snapshot |
| LiveMerge.MergedEffect | App.tsx:412-419 | with new commits: the total grows by them, the history sum grows by them, and the watermark becomes now; without them the stats are unchanged |
| LiveMerge.MergedInvariant | App.tsx:386-419 | unique dates and non-negative counts survive a merge |
| LiveMerge.ApplyEventsNonNegative | App.tsx:392-409 | non-negative counts stay non-negative |
| LiveMerge.EmptyOrFailedFeed | App.tsx:381 | a failed fetch and an empty feed leave the stats exactly as they were |
| LiveMerge.StaleFeedNoChange | App.tsx:396 | a feed with no push newer than the snapshot changes nothing |
| LiveMerge.MergeIdempotent | App.tsx:396-419 | merging the same feed again after it was applied at or after its last event changes nothing |
| LiveMerge.WatermarkMonotone | App.tsx:417 | the watermark never moves backwards for merges at or after it |
| LiveMerge.SameDayExample | App.tsx:392-409 | two pushes of sizes 2 and 3 on a day any history lacks become one entry of count 5 appended at its end, and a total of +5 |
| LiveMerge.NewCommits | App.tsx:387-398 | no contract of its own; `LiveMerge.NewCommitsPositive` states it is positive exactly when a newer push is present, and `LiveMerge.ApplyEventsSum` that it is what the history gains |
| LiveMerge.ApplyEvents | App.tsx:388-409 | no contract of its own; `LiveMerge.ApplyEventsSum`, `ApplyEventsUnique`, `ApplyEventsKeepsOrder` and `ApplyEventsNonNegative` state its sum, uniqueness, order and sign |
| LiveMerge.Merged | App.tsx:386-419 | no contract of its own; `LiveMerge.MergedEffect`, `MergedInvariant`, `EmptyOrFailedFeed`, `StaleFeedNoChange`, `MergeIdempotent` and `WatermarkMonotone` state its effect and invariants |
| Calendar.DaysInMonth | components/CommitHeatmap.tsx:19 | a month has 28 to 31 days: February 28 or 29 by the Gregorian leap rule, April, June, September and November 30, the rest 31 |
| Calendar.PadStart2 | components/CommitHeatmap.tsx:26-27 | text of two or more characters is unchanged; shorter text is left-padded with '0' to two characters |
| Calendar.DecimalRoundTrip | components/CommitHeatmap.tsx:26-28 | the decimal text of a number reads back as the number |
| Calendar.TwoDigits | components/CommitHeatmap.tsx:26-27 | a day or month from 1 to 99 prints, after padding, as its two digits |
| Calendar.FourDigits | components/CommitHeatmap.tsx:28 | a year from 1000 to 9999 prints as its four digits |
| Calendar.FormatDateRoundTrip | components/CommitHeatmap.tsx:25-29 | `formatDate` yields a well-formed `YYYY-MM-DD` key that reads back as (year, month0 + 1, day) |
| Calendar.FormatDateInjective | components/CommitHeatmap.tsx:25-29 | distinct dates get distinct keys |
| Calendar.FormatDate | components/CommitHeatmap.tsx:25-29 | no contract of its own; `Calendar.FormatDateRoundTrip`, `FormatDateInjective` and `DateKeyOrder` state that it yields a key that parses back to its date, distinct for distinct dates, in chronological text order |
| Calendar.ParseDate | types.ts:40 | reading a `YYYY-MM-DD` key (the format of `ContributionDay.date`): a text parses exactly when it has the key shape, into a year below 10000 and a month and day below 100 |
| Calendar.KeySplit | types.ts:40 | every key is exactly the four, two and two digits of the year, month and day it parses to |
| Calendar.ParseDateRoundTrip | components/CommitHeatmap.tsx:25-29 | a key with a four-digit year and month and day at least 1 is the `formatDate` text of the date it parses to |
| Calendar.KeyOrder | scripts/update-stats.js:77 | for any two `YYYY-MM-DD` keys, text order is the order of their (year, month, day) |
| Calendar.TextLessIrreflexive | scripts/update-stats.js:77 | no text sorts before itself |
| Calendar.TextLessTransitive | scripts/update-stats.js:77 | text order is transitive |
| Calendar.TextLessTotal | scripts/update-stats.js:77 | distinct texts are ordered one way or the other |
| Calendar.DigitsOrder | scripts/update-stats.js:77 | for digit text of one width, text order is numeric order and equal text means equal numbers |
| Calendar.DateKeyOrder | scripts/update-stats.js:77 | for canonical keys, text order is chronological order (year, then month, then day) |
| Heatmap.CountForDate | components/CommitHeatmap.tsx:31-35 | the count of the first entry with the date, or 0 when no entry has it |
| Heatmap.CountForUniqueDate | components/CommitHeatmap.tsx:31-35 | with unique dates, the count found is that entry's count |
| Heatmap.Intensity | components/CommitHeatmap.tsx:37-43 | the tier is at most 4, and it is 0 exactly for a count of 0 |
| Heatmap.IntensityCountsThresholds | components/CommitHeatmap.tsx:37-43 | the tier of a non-negative count is the number of thresholds 1, 2, 4 and 6 it reaches |
| Heatmap.IntensityMonotone | components/CommitHeatmap.tsx:37-43 | more activity never shows a lighter tier |
| Heatmap.IntensityExamples | components/CommitHeatmap.tsx:37-43 | counts 0, 1, 2, 3, 4, 5, 6 and 1000 map to tiers 0, 1, 2, 2, 3, 3, 4 and 4 |
| Heatmap.BuildMonthGrid | components/CommitHeatmap.tsx:45-67 | padding, then days 1 to daysInMonth in order, then padding to the end; 42 cells when the first weekday is at most 6 and the month at most 31 days |
| Heatmap.GridPrefixCount | components/CommitHeatmap.tsx:45-67 | the first k cells hold exactly the days shown by position k |
| Heatmap.SumDaysPositive | components/CommitHeatmap.tsx:69-71 | with non-negative daily counts the sum is non-negative, and positive exactly when some day is active |
| Heatmap.GridPrefixTotal | components/CommitHeatmap.tsx:69 | over the first k cells, the total is the sum of the days shown |
| Heatmap.GridCellCount | components/CommitHeatmap.tsx:52-61 | a day cell counts its day's history count, and padding counts nothing |
| Heatmap.MonthTotal | components/CommitHeatmap.tsx:69 | no contract of its own; `Heatmap.MonthGridTotals`, `GridPrefixTotal` and `DaySumPositive` state that it is the sum of the month's daily counts, positive exactly when some day is active |
| Heatmap.IsOnline | components/CommitHeatmap.tsx:71 | no contract of its own; `Heatmap.BuildMonthView` states that the view's flag is total > 0 or streak |
| Heatmap.MonthGridTotals | components/CommitHeatmap.tsx:45-69 | a month grid has one cell per day of the month, and its total is the sum of the month's daily counts |
| Heatmap.DaySumPositive | components/CommitHeatmap.tsx:69-71 | with non-negative history counts the month total is non-negative, and positive exactly when some day of the month is active |
| Heatmap.CountNonNegative | components/CommitHeatmap.tsx:31-35 | a non-negative history gives non-negative counts |
| Heatmap.BuildMonthView | components/CommitHeatmap.tsx:13-74 | the view has the month grid with the Gregorian month length, 42 cells and one cell per day; its total is the month's daily sum, and `isOnline` is total > 0 or streak |
| UpdateStats.SumNonNegative | scripts/update-stats.js:35-40 | a sum of non-negative values is non-negative |
| UpdateStats.TotalStars | scripts/update-stats.js:35-40 | the stars are 0 when the reply is not an array, and otherwise the sum of the repositories' star counts |
| UpdateStats.MapTotalRemove | scripts/update-stats.js:74-77 | any key may be taken out of a map's total first |
| UpdateStats.MapTotalUpdate | scripts/update-stats.js:65 | setting a key changes the map total by the new value minus the old value (0 when absent) |
| UpdateStats.MapTotalZero | scripts/update-stats.js:52-57 | an all-zero map totals 0 |
| UpdateStats.WindowMap | scripts/update-stats.js:52-57 | after n rounds the keys are the date parts of the first n days back, all with value 0 |
| UpdateStats.InitWindow | scripts/update-stats.js:49-57 | the baseline loop yields the 60-day window map |
| UpdateStats.Contribution | scripts/update-stats.js:61-69 | a push adds its payload size (1 when zero or missing), a create or pull-request event adds 1, and exactly the other events add 0 |
| UpdateStats.EventsTotal | scripts/update-stats.js:59-71 | the events' total contribution is non-negative, and at least the number of counted events |
| UpdateStats.FoldEvents | scripts/update-stats.js:59-71 | a reply that is not an array leaves the map as it was; otherwise the loop computes the left fold of the events |
| UpdateStats.AddEvent | scripts/update-stats.js:60-70 | no contract of its own; `UpdateStats.AddEventTotal` states that one event adds its contribution to the map total |
| UpdateStats.ApplyAll | scripts/update-stats.js:59-71 | no contract of its own; `UpdateStats.FoldEvents` is proved equal to it, and `ApplyAllTotal`, `ApplyAllDay`, `ApplyAllKeys` and `ApplyAllNonNegative` state its total, days, keys and sign |
| UpdateStats.ApplyAllTotal | scripts/update-stats.js:59-71 | the fold adds exactly the events' total contribution to the map total |
| UpdateStats.AddEventTotal | scripts/update-stats.js:61-69 | one event adds its contribution to the map total |
| UpdateStats.ApplyAllDay | scripts/update-stats.js:59-71 | each day's value is its starting value plus the contributions of its events |
| UpdateStats.ApplyAllKeys | scripts/update-stats.js:59-71 | a day is a key after the fold exactly when it was one before or some counted event falls on it |
| UpdateStats.ApplyAllNonNegative | scripts/update-stats.js:59-71 | non-negative maps stay non-negative |
| UpdateStats.TextLessAsymmetric | scripts/update-stats.js:77 | text order is asymmetric |
| UpdateStats.DateLeTransitive | scripts/update-stats.js:77 | the comparator's "not after" relation is transitive |
| UpdateStats.InsertByDate | scripts/update-stats.js:77 | an insertion adds exactly the new entry (as a multiset) |
| UpdateStats.SortByDate | scripts/update-stats.js:77 | the sort is a permutation of its input |
| UpdateStats.InsertSorted | scripts/update-stats.js:77 | inserting into a sorted history keeps it sorted |
| UpdateStats.InsertUnique | scripts/update-stats.js:77 | inserting a fresh date keeps the dates unique |
| UpdateStats.SortSorted | scripts/update-stats.js:77 | the sort's output is sorted by date |
| UpdateStats.SortUnique | scripts/update-stats.js:77 | sorting keeps the dates unique |
| UpdateStats.SortedUniqueChronological | scripts/update-stats.js:77 | a sorted history with distinct dates strictly increases in date |
| UpdateStats.DescribesTotal | scripts/update-stats.js:74-77 | the listed counts sum to the map total |
| UpdateStats.DescribesEmpty | scripts/update-stats.js:74-76 | a listing is empty exactly when its map is |
| UpdateStats.ListingHeads | scripts/update-stats.js:74-77 | two chronological listings of one map start with the same entry |
| UpdateStats.ChronologicalListingUnique | scripts/update-stats.js:74-77 | a map has one chronological listing, so the key order of `Object.keys` cannot change the history |
| UpdateStats.DescribesExtend | scripts/update-stats.js:74-76 | appending a fresh key's entry lists the extended map |
| UpdateStats.SortedListing | scripts/update-stats.js:74-77 | sorting a listing keeps it a listing and makes it chronological |
| UpdateStats.MapToHistory | scripts/update-stats.js:73-77 | the history has one entry per key of the map, with that key's count, unique dates, in strictly increasing date order |
| UpdateStats.IsActiveMonth | scripts/update-stats.js:109-111 | no contract of its own; `UpdateStats.ActiveMonthInMs` states it in whole milliseconds |
| UpdateStats.ActiveMonthInMs | scripts/update-stats.js:109-111 | the streak holds exactly when today − last push < 30 · 86 400 000 ms |
| UpdateStats.FetchGitHubStats | scripts/update-stats.js:18-120 | fails with "User not found" exactly for that reply; otherwise yields the repositories, stars, streak, time, sorted listing of the window map and commit total |
| UpdateStats.SnapshotWindow | scripts/update-stats.js:52-57 | every day of the 60-day window appears in the history |
| UpdateStats.SnapshotCounts | scripts/update-stats.js:59-77 | each day counts exactly its events' contributions, and all counts are non-negative |
| UpdateStats.SnapshotTotal | scripts/update-stats.js:59-77 | the history counts add up to the total contribution of the feed |
| UpdateStats.SnapshotCommits | scripts/update-stats.js:80-106 | `totalCommits` is the feed's total plus 100 when the old snapshot parsed, and 0 otherwise (no file, no match, bad JSON); never negative |

## Left out

- Network I/O: `fetch`, `response.ok`, `response.json()`. Replies are
  parameters: an optional event list, an optional star list, and a user
  reply that is "Not Found" or carries `public_repos` and `updated_at`.
- Filesystem and process effects of scripts/update-stats.js: `existsSync`,
  `readFileSync`, the regex extraction, `JSON.parse`, `writeFileSync`,
  logging and `process.exit(1)`. The outcome of reading the old file is an
  input (`PriorSnapshot`), and the thrown "User not found" is the `Failure`
  result.
- Clock, locale and date parsing: `new Date()`, `toISOString`, `getDay`,
  `toLocaleString` and `new Date(text).getTime()`. "Now" is a parameter,
  timestamps are integers, the first weekday of the month is an input, and
  the key of "i days ago" is the function `isoDaysAgo`. The mix of local and
  UTC date arithmetic in the window loop is host behaviour and not modelled.
- Curve.CurrentXp: the model's score is the floor of the exact weighted sum,
  while the source adds IEEE doubles. Their rounding can make the source's
  floored score one lower on ordinary inputs, not only at level boundaries.
  For example, 2 commits, 0 repositories and 43 stars with the four projects
  sum exactly to 9.00 (the model's 9), but in doubles 0.2 + 0 + 8.6 gives
  8.799999999999999 and adding the projects' 0.2 gives 8.999999999999998,
  which floors to 8. The progress percentage is exact too and may differ in
  its last bits.
- Curve.Level: a NaN score (from a missing snapshot field) gives NaN in the
  source. The model's score is always an integer, so it has no such case.
- The sort comparator `new Date(a.date).getTime() - new Date(b.date).getTime()`
  is modelled as text order on the keys. `Calendar.KeyOrder` proves that for
  any two `YYYY-MM-DD` keys, text order is (year, month, day) order.
  `Calendar.DateKeyOrder` proves the same for the keys `formatDate` builds.
  Keys that are not of that shape, such as an empty date part, are not
  covered; `Date` would parse them differently.
- The order of `Object.keys` is not modelled. The map is listed in an
  arbitrary order, and `UpdateStats.ChronologicalListingUnique` proves that
  the sorted result does not depend on it.
- LiveMerge.FetchLiveUpdates: the history is a value. `[...stats.history]`
  (App.tsx:388) copies only the array, so the source's
  `existingDay.count += commitCount` (App.tsx:404) also raises the counts of
  the entry objects shared with the old `stats.history`. That aliasing is not
  modelled. It matters when a later event throws (next line).
- A counted push without `payload` throws at App.tsx:397. The `catch` then
  skips `setStats`, so `totalCommits` and `lastUpdated` stay as they were.
  But the counts that earlier events of the same feed added to existing days
  remain in the shared entries of `stats.history`. The model takes every
  event to carry a payload, with a missing `size` read as 0, so it does not
  model this partial update. In scripts/update-stats.js the same throw ends
  the script through its `catch` and `process.exit(1)`.
- An event whose `created_at` is missing has a NaN time in the source, and
  `eventTime > lastUpdatedTime` is false for it (App.tsx:396), so the merge
  skips it. The model's events always carry an integer time.
- UpdateStats.TotalStars: a repository without `stargazers_count` would make
  the source's sum `NaN`; the model takes an integer per repository.
- Only the first 100 repositories are fetched (no pagination); the model
  sums whatever list it is given.
- The defensive initialisation of the stats state (App.tsx:354-370) and the
  React state mechanics (`useState`, `useEffect`, `useMemo`) are not
  modelled. The effect that fires once the game starts is one call to the
  merge.
- The month name, PDF export, download animation, JSX rendering, the chat
  console, the radar chart and the build configuration are presentation or
  third-party code outside the core.
