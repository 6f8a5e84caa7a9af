# Leaderboard proxy core, modelled in Dafny

The proxy in `index.js` polls an affiliate service for wager totals. It turns
the reply into a top-ten leaderboard, keeps that leaderboard in a
process-wide cache, and serves the cache at `/leaderboard/top14`. This
project models the pure core of that loop:

- **`mask.dfy`** (`Mask`): `maskUsername`. Names of at most four characters
  are shown whole. Longer names keep their first two and last two
  characters around `***`.
- **`date_range.dfy`** (`DateRange`): `getDateRange`, as a pure function of
  today's UTC `(year, month0, day)`. It includes the two rules of `Date.UTC`
  that matter here: years 0 to 99 are read as 1900 to 1999, and month 12
  carries into January of the next year.
- **`iso_format.dfy`** (`IsoFormat`): the `YYYY-MM-DD` text that
  `toISOString().split("T")[0]` produces, with a parser that reads it back.
- **`text.dfy`** (`Text`): ASCII lower-casing and substring search, used by
  the entry filter.
- **`leaderboard.dfy`** (`Leaderboard`): the body of `fetchAndCacheData`
  from the reply's `affiliates` array to the stored rows. It filters,
  sorts by amount (largest first), keeps ten, swaps the first two, and masks
  the names.
- **`cache.dfy`** (`Cache`): the cache as a state machine. It starts empty.
  A refresh cycle either fails, leaving the cache alone, or replaces it
  wholesale. The read path returns it.
- **`wrappers.dfy`** (`Wrappers`): the `Option` and `Result` types.

The outside world becomes input. The clock becomes a `CivilDate`. The HTTP
request and JSON parse become a `FetchOutcome`:
- `RequestFailed`: the request failed;
- `BodyNotJson`: the body was not JSON;
- `Body(field)`: the body parsed, with its `affiliates` field.

Each affiliate entry is a `RawEntry`:
- its username is `Option<string>`, where `None` means missing or null;
- its amount is `Option<int>`, the rounded value of `parseFloat`, where
  `None` means NaN.

Three points about the code are worth stating up front:
- **Date window.** The start is the 26th of the end's own month, the day
  after the end, not the 26th of the month before (see Findings).
- **Rank swap.** After sorting, the first two entries are exchanged, so
  amounts 5, 50, 20, 1 are published in the order 20, 50, 5, 1
  (`Leaderboard.RankingExample`). The largest wager is shown second.
- **Constants.** The board keeps ten entries (index.js:69), and the window
  steps back a month when the current day is at most 25 (index.js:28).

## Model

| member | source | states |
|---|---|---|
| Mask.MaskUsername | index.js:16-19 | Names of length ≤ 4 come back unchanged. Longer names become seven characters: the first two, then three `*`, then the last two. |
| Mask.MaskBounds | index.js:16-19 | A masked name has at most 7 characters, at most 2 more than the original. It reveals only the original's first two and last two characters. |
| Mask.MaskFixpoints | index.js:17-18 | Masking leaves a name unchanged exactly when the name has ≤ 4 characters or already has the masked shape (7 characters with `***` in the middle). |
| Mask.MaskIdempotent | index.js:18 | Masking a masked name changes nothing. |
| DateRange.FullYear | index.js:36-37 | `Date.UTC` reads a year y from 0 to 99 as exactly 1900 + y and keeps every other year. |
| DateRange.Utc | index.js:36-37 | `Date.UTC` for a day present in every month. The result's month is normalised to 0..11. The result counts the same number of months as the year (after the two-digit rule) and month passed in. |
| DateRange.GetDateRange | index.js:21-38 | The end is always a 25th and the start always a 26th. Both lie in the same month. The start's year is the end's year as `Date.UTC` reads it. |
| DateRange.EndWhenOnOrBefore25th | index.js:25-36 | On or before the 25th, the end is the 25th of the current month. The step back, including the January wrap at lines 30-33, is undone by the `+ 1`. |
| DateRange.EndWhenAfter25th | index.js:25-36 | After the 25th, the end is the 25th of the next month. December wraps to January of the next year. |
| DateRange.EndIsFirst25thFromToday | index.js:24-36 | The end is the first 25th on or after today. It is not before today, and every later 25th is no earlier than it. |
| DateRange.StartIsDayAfterEnd | index.js:36-37 | The start is the 26th of the end's own month, so it falls strictly after the end. |
| DateRange.TwoDigitYearShift | index.js:36-37 | In the two-digit years the window shifts into the 1900s. On 10 June of year 50 the end is 25 June 1950. In January of year 0 the start is in 1900 while the end is in year 0. |
| DateRange.IntendedDateRange | index.js:37 | Corrected window: the same end, with the start on the 26th of the month before the end's month. |
| DateRange.IntendedWindowContainsToday | index.js:36-37 | The corrected window starts before it ends and contains today. |
| DateRange.BillingPeriodBeforeCutoff | index.js:21-43 | On 2024-03-10 the corrected window is 2024-02-26 to 2024-03-25. The code sends 2024-03-26 to 2024-03-25. |
| DateRange.BillingPeriodAfterCutoff | index.js:21-43 | On 2024-03-26 the corrected window is 2024-03-26 to 2024-04-25. |
| DateRange.ProgramWindowAfterCutoff | index.js:21-43 | On 2024-03-26 the code sends 2024-04-26 to 2024-04-25. |
| DateRange.BillingPeriodAcrossYear | index.js:21-43 | On 2024-01-10 the corrected window is 2023-12-26 to 2024-01-25 across the year boundary. The code sends 2024-01-26 to 2024-01-25. |
| IsoFormat.Digits | index.js:40-41 | Decimal text of a number, all digits, zero-padded to at least the given width. |
| IsoFormat.DigitsRoundTrip | index.js:40-41 | Reading the padded digits back gives the number. |
| IsoFormat.DigitsExactWidth | index.js:40-41 | A number below 10^w takes exactly w characters. |
| IsoFormat.YearText | index.js:40-41 | Years 0..9999 take four digits. Later years take `+` and at least six digits; earlier years take `-` and at least six digits. |
| IsoFormat.IsoDate | index.js:40-41 | The date text ends in `-MM-DD`. It is exactly 10 characters long for years 0..9999. |
| IsoFormat.YearRoundTrip | index.js:40-41 | Reading a written year field back gives the year, for every year. |
| IsoFormat.IsoDateRoundTrip | index.js:40-41 | Reading a formatted day back gives the day. |
| IsoFormat.WindowText | index.js:39-42 | The `start_at` and `end_at` texts read back as the window's start and end. |
| IsoFormat.IsoDateExample | index.js:40-41 | 26 February 2024 is written `2024-02-26`. |
| IsoFormat.IsoDatePaddingExample | index.js:40-41 | Year, month and day are zero-padded: `0987-12-05`. |
| IsoFormat.IsoDateNegativeYearExample | index.js:40-41 | A year before 0 is written with a sign and six digits: `-000001-01-25`. |
| Text.Lower | index.js:61 | Lower-casing keeps the length and lower-cases each ASCII letter in place. |
| Text.Includes | index.js:61 | The substring test holds exactly when the pattern occurs at some position. |
| Leaderboard.Keep | index.js:59-62 | An entry yields a candidate exactly when the filter accepts it: a non-empty username, no case-insensitive "tyler" in it, and a numeric amount. The candidate carries that name and amount. |
| Leaderboard.Filter | index.js:58-63 | Every survivor has a non-empty name with no "tyler" in its lower-cased form. There are no more survivors than entries. |
| Leaderboard.FilterSingle | index.js:58-63 | One entry yields its candidate exactly once if it is accepted, and nothing otherwise. |
| Leaderboard.FilterAppend | index.js:58-63 | Filtering a concatenation is the concatenation of the filtered parts. With `FilterSingle` this pins the survivors: every accepted entry survives exactly once, duplicates included, in input order. |
| Leaderboard.FilterCount | index.js:58-63 | The filter keeps as many candidates as there are entries its condition accepts. |
| Leaderboard.KeepExamples | index.js:59-62 | "xTyLeRx" is dropped (case-insensitive "tyler" anywhere in the name), as are a NaN amount, an empty name and a missing name. An eligible entry passes with its name and amount. |
| Leaderboard.FilterMembership | index.js:58-63 | A candidate survives exactly when some input entry is accepted and carries its name and amount. |
| Leaderboard.Insert | index.js:65-67 | Inserting into a list sorted largest first keeps it sorted and adds exactly the one candidate. |
| Leaderboard.SortDescending | index.js:65-67 | The result is sorted largest first and is a permutation of the input. |
| Leaderboard.Take | index.js:69 | Keeps `min(n, length)` entries, each equal to the input entry at the same position. |
| Leaderboard.TakeKeepsLargest | index.js:69 | On a sorted list, the kept entries come from the input, and every dropped entry has an amount no larger than any kept one. |
| Leaderboard.SwapFirstTwo | index.js:71-73 | With ≥ 2 entries, positions 0 and 1 are exchanged and every other position is unchanged. With fewer entries, the list is unchanged. The entries are a permutation of the input. |
| Leaderboard.SwapInvolution | index.js:71-73 | Swapping twice restores the list. |
| Leaderboard.SwappedOrder | index.js:71-73 | After the swap of a sorted list, the second entry is at least the first. The first is at least every later entry, and from the second entry on the order is kept. |
| Leaderboard.Ranked | index.js:65-73 | The ranked list has at most ten candidates. |
| Leaderboard.RankedIsTopOfFiltered | index.js:58-73 | The ranked list has exactly `min(10, number filtered)` candidates, all drawn from the filtered ones. No filtered candidate left out has a larger amount than one kept. |
| Leaderboard.RankedOrder | index.js:65-73 | In the ranked list, position 1 ≥ position 0, position 0 ≥ every position from 2 on, and positions 1 onward are sorted largest first. |
| Leaderboard.Publish | index.js:75-81 | A published row carries the masked name, and the amount in both `wagered` and `weightedWager`. |
| Leaderboard.BuildLeaderboard | index.js:75-82 | The board has one row per ranked candidate (at most ten), each the published form of that candidate. |
| Leaderboard.RankedEligible | index.js:58-73 | Every ranked candidate's name is eligible: non-empty, with no "tyler" in its lower-cased form. |
| Leaderboard.BoardShape | index.js:58-82 | Every board has at most ten rows. Each row has `weightedWager == wagered` and a name of at most seven characters that is the mask of an eligible name. Row 1's wager is at least row 0's. Row 0's is at least every row's from 2 on. From row 1 on, wagers never increase. |
| Leaderboard.ExampleFilter | index.js:58-63 | Four eligible entries all pass the filter in input order. |
| Leaderboard.ExampleSortTail | index.js:65-67 | Amounts 50, 20, 1 are already sorted. |
| Leaderboard.ExampleInsert | index.js:65-67 | Inserting amount 5 into 50, 20, 1 places it third. |
| Leaderboard.ExampleSort | index.js:65-67 | Amounts 5, 50, 20, 1 sort to 50, 20, 5, 1. |
| Leaderboard.ExampleRanked | index.js:58-73 | Amounts 5, 50, 20, 1 rank as 20, 50, 5, 1. |
| Leaderboard.RankingExample | index.js:58-82 | Amounts 5, 50, 20, 1 are published as 20, 50, 5, 1: the top wager is shown second. |
| Cache.Init | index.js:7 | The cache starts with an empty leaderboard. |
| Cache.Cycle | index.js:45-82 | A cycle succeeds exactly when the body parsed and its `affiliates` is an array, and then yields at most ten rows. A failed request is a network error, an unparsable body a parse error, and a missing or non-array field a shape error. |
| Cache.Refresh | index.js:54-56 | A failed cycle leaves the cache exactly as it was. A successful one replaces the snapshot with the new board, whatever it held before. |
| Cache.Serve | index.js:93-95 | The read path returns the cached snapshot as it stands. |
| Cache.Run | index.js:90-91 | The cache after a run of refresh cycles from start-up never holds more than ten rows. |
| Cache.RefreshPreservesWellFormed | index.js:75-87 | A refresh keeps the cache at ≤ 10 rows, each with equal wager fields and a name of ≤ 7 characters. |
| Cache.RunServesLatestBoard | index.js:7-95 | After any sequence of cycles from start-up, the cache is well formed. It serves the board of the latest well-shaped reply, or the empty board if there was none. |
| Cache.MalformedReplyKeepsSnapshot | index.js:54-56 | A reply without `affiliates` after a successful cycle leaves the earlier board in place. |

## Findings

| source | as written | input that shows it | evidently intended | confidence | as-written member | corrected member |
|---|---|---|---|---|---|---|
| index.js:37 | The start is `Date.UTC(end year, end month, 26)`, the 26th of the end's own month. That is the day after `end_at`, so the window is inverted. | Today 2024-03-10: `start_at` = 2024-03-26, `end_at` = 2024-03-25 | The start is the 26th of the month before the end's (`end month - 1`), giving a 26th-to-25th billing period that contains today | medium, not executed | DateRange.StartIsDayAfterEnd | DateRange.IntendedWindowContainsToday |

`DateRange.GetDateRange` remains the model of what the program sends, and
`IsoFormat.WindowText` formats that window. The corrected window sits
beside it as `DateRange.IntendedDateRange`. No other part of the model
consumes a window.

## Left out

- The Express app, CORS headers, route registration and `app.listen` (index.js:4-14, 93-95, 105) are framework plumbing. Only "serve the cache" is modelled, as `Cache.Serve`.
- The `node-fetch` request, the JSON parse, and the URL and key string (index.js:49-52) are I/O. Their outcome is the `FetchOutcome` input. The computed window is not threaded into the cycle, because it only feeds the URL.
- The five-minute `setInterval` and the self-ping (index.js:90-91, 97-103) are timers. `Cache.Run` models a run of cycles as a list of outcomes, with no timing and no overlapping cycles.
- `parseFloat`, `Math.round` and floating point (index.js:62, 66, 76) are abstracted to an `Option<int>` amount. Sorting compares the rounded values, whereas the program compares the unrounded ones. Infinite amounts are not modelled.
- The order among entries with equal amounts after sorting is not stated. Only sortedness and permutation are.
- A truthy username that is not a string makes `toLowerCase` throw and fails the whole cycle. A `null` array element fails it the same way. These are not modelled: usernames are strings or absent.
- `Text.Lower`: lower-cases ASCII letters only, not the full Unicode mapping of `toLowerCase`.
- `Mask.MaskUsername`: lengths and slices count Unicode scalar values, whereas JavaScript counts UTF-16 code units. The two differ only for characters outside the Basic Multilingual Plane.
- `DateRange.Utc`: models only days that exist in every month (the program passes 25 and 26), so day overflow into the next month is not modelled.
- DateRange.EndWhenOnOrBefore25th: stated only for years ≤ -2 or ≥ 101. In the two-digit band `Date.UTC` shifts the end into the 1900s (see `DateRange.TwoDigitYearShift`).
- DateRange.EndWhenAfter25th: stated only for years ≤ -2 or ≥ 101, for the same reason.
- DateRange.EndIsFirst25thFromToday: stated only for years ≤ -2 or ≥ 101, for the same reason.
- DateRange.StartIsDayAfterEnd: stated only for years ≤ -2 or ≥ 101. Around year 0 the start can land in the 1900s while the end does not.
- DateRange.IntendedWindowContainsToday: stated only for years ≤ -2 or ≥ 101, for the same reason.
- `DateRange.GetDateRange`: years beyond a JavaScript `Date`'s range (about ±270,000) are not modelled. There `toISOString` throws and the cycle fails.
- `console` logging is left out.
