# Whale-signal dashboard: the logic under the view

The dashboard is one React component (`src/App.tsx`). It generates 100 mock
"whale" traders and 5 seed alerts. A timer simulates a live feed of
convergence alerts, and a search box filters the trader table. This project
models the pure operations under the rendering and timers, and proves
properties about them:

- **Alert trader lists** (`Dedup`). A random draw of trader names followed by
  `.filter((v, i, a) => a.indexOf(v) === i)`. The filter keeps first
  occurrences. The result has no duplicates, holds exactly the drawn names in
  first-seen order, and those three facts determine it. A non-empty draw gives
  a non-empty list no longer than the draw or the name pool.
- **Alert feed** (`AlertFeed`):
  - The history is prepended and then truncated to 20 entries.
  - The simulator tick and the notification clear are explicit transitions
    of a `FeedState`.
  - A state invariant holds across any sequence of ticks and clears: at most
    20 alerts, no repeated names in an alert, and the notification points at
    the newest alert.
  - The seed alerts from `generateAlerts` are also modelled.
- **Traders** (`Traders`, `Search`). `toggleFollow` flips one record by id.
  It is an involution, it is the identity on an unknown id, and toggles of
  two ids commute. The search filter is an order-preserving subsequence that
  keeps exactly the traders whose lower-cased name contains the lower-cased
  query.
- **`formatTimeAgo`** (`TimeAgo`). The seconds/minutes/hours/days bucketing,
  stated by its floor-division bounds. The rendered text reads back to its
  bucket and amount.
- **`generateTraders`** (`Generate`):
  - The 100 records with their ids, cycled names and field ranges.
  - The stable descending sort by portfolio value, proved to be an ordered
    permutation.
  - Records with equal values keep their id order.
  - Ids are exactly 1 to 100 and every rank equals its id.
  - Cycling a pool of distinct names gives distinct names for the first
    nine rounds.

Randomness and the clock are parameters. Every `Math.random()` value is a
`real` in [0, 1) supplied by the caller (`Random.IsDraw`). `Math.floor(r * n)`
is `Random.PickIndex`. Every clock reading is its own integer millisecond
input: a simulated alert's id and its timestamp come from two separate
readings (`idMs`, `stampMs`), and each seed alert reads the clock on its own
(`SeedInput.nowMs`). `formatTimeAgo` takes the elapsed whole seconds;
`ElapsedSeconds` computes them from two clock readings.

Two points about the code itself:

- Rank. `generateTraders` assigns `rank: i + 1` while building the records,
  before sorting, so after the sort rank equals id, not position. The
  dashboard's top-performer cards number positions (`#{i + 1}`,
  src/App.tsx:313-318), while the traders grid shows and styles
  `trader.rank` (src/App.tsx:462-466), so the two views disagree (see
  Findings).
- Notification timeout. Each emission starts its own 5-second timeout that
  hides the notification (src/App.tsx:129); none is ever cancelled. With the
  8-second interval (src/App.tsx:131), each timeout fires before the next
  tick unless that tick runs at least 3 seconds late. The model lets `Clear`
  occur at any point between ticks, a safe over-approximation of that
  timing.

Files: `option.dfy`, `seq_util.dfy`, `random.dfy`, `decimal.dfy`,
`dedup.dfy`, `time_ago.dfy`, `alert_feed.dfy`, `traders.dfy`, `search.dfy`,
`generate.dfy`.

## Model

| member | source | states |
|---|---|---|
| Dedup.IndexOf | src/App.tsx:77 | `a.indexOf(v)` returns -1 exactly when v is absent. Otherwise it returns an index holding v with no earlier occurrence. |
| Dedup.KeepFirstUpTo | src/App.tsx:77 | The indexOf filter over a prefix keeps a duplicate-free list of exactly the prefix's values. They are in order of first occurrence. |
| Dedup.FirstOccurrences | src/App.tsx:77 | The filtered draw has no duplicates. It contains exactly the drawn values, in first-seen order. It is no longer than the draw and non-empty when the draw is. |
| Dedup.FirstOccurrencesUnique | src/App.tsx:77 | Any duplicate-free list of exactly the draw's values, in first-occurrence order, equals the filter's result. |
| Dedup.DrawNames | src/App.tsx:75-76 | One name per pick draw, each taken from the pool. |
| Dedup.DrawTraders | src/App.tsx:75-77 | Draw then dedup gives a list with no duplicates, drawn from the pool. It is non-empty and at most min(largest draw length, pool size) long. |
| Dedup.DedupWithinPool | src/App.tsx:69-77 | A deduplicated draw from a pool is no longer than the pool. |
| Random.PickIndex | src/App.tsx:76 | `Math.floor(Math.random() * n)` is a valid index below n. |
| Random.RoundHalfUp | src/App.tsx:54 | `Math.round` of a non-negative value is within one half of it (half rounds up). |
| Decimal.NatToString | src/App.tsx:154 | `${n}` for a natural number is a non-empty digit string with no leading zero. |
| Decimal.IntToString | src/App.tsx:154 | The decimal text of an integer (a negative age prints its sign) is non-empty and starts with "-" exactly when the integer is negative. |
| Decimal.IntRoundTrip | src/App.tsx:154-157 | Reading back the decimal text printed for an integer gives the integer. |
| Decimal.CanonicalDigits | src/App.tsx:154-157 | Every digit string without a leading zero is the printed form of the value it reads as. |
| TimeAgo.ElapsedSeconds | src/App.tsx:153 | The elapsed seconds are the floor of the millisecond difference over 1000. |
| TimeAgo.Bucket | src/App.tsx:154-157 | Unit thresholds are <60 s, <3600 s, <86400 s, else days. The seconds bucket shows s itself. Every other bucket shows q with q·unit ≤ s < (q+1)·unit and q ≥ 1, below 60 for minutes and below 24 for hours. |
| TimeAgo.FormatTimeAgo | src/App.tsx:152-158 | The text ends in " ago". The letter before it is s, m, h or d by the thresholds 60, 3600 and 86400 seconds. The digits before the letter read back to the amount of the bucket. |
| TimeAgo.FormatTimeAgoRoundTrip | src/App.tsx:152-158 | The text `formatTimeAgo` prints reads back to exactly the bucket and amount chosen. |
| TimeAgo.NinetySecondsExample | src/App.tsx:154-155 | 90 s prints "1m ago". |
| TimeAgo.TwoHoursExample | src/App.tsx:156 | 7300 s prints "2h ago". |
| TimeAgo.FiftyNineSecondsExample | src/App.tsx:154 | 59 s prints "59s ago": the seconds bucket ends just below one minute. |
| TimeAgo.OneDayExample | src/App.tsx:157 | Exactly 86400 s prints "1d ago": the days bucket starts at one day. |
| TimeAgo.BucketMonotone | src/App.tsx:154-157 | A longer age never falls in a smaller unit, or shows a smaller amount of the same unit. |
| AlertFeed.Insert | src/App.tsx:128 | The new history starts with the new alert. The rest is a prefix of the old history. Its length is min(old + 1, 20). |
| AlertFeed.InsertAllKeepsNewest | src/App.tsx:128 | After any sequence of insertions, the history is the newest 20 alerts, newest first: a bounded ring buffer. |
| AlertFeed.InsertTake | src/App.tsx:128 | Inserting into the newest 20 of a list gives the newest 20 of the list with the alert in front. |
| AlertFeed.SimulatedAlert | src/App.tsx:110-125 | A simulated alert's id is the first clock reading and its timestamp the second. Coin and symbol are one coin from the 8-coin pool. It has 1 to 5 distinct names from the 5-name pool. |
| AlertFeed.Tick | src/App.tsx:112-128 | A gate draw ≤ 0.7 leaves the state unchanged. A gate draw > 0.7 sets the notification pointer to the new alert, raises the flag and inserts the alert into the history. |
| AlertFeed.Clear | src/App.tsx:129 | The clear step lowers the flag and changes neither the pointer nor the history. |
| AlertFeed.TickAlertCount | src/App.tsx:114-128 | An emitting tick adds exactly one alert below the cap. At the cap it stays at 20 and drops the oldest. A silent tick leaves the history alone. |
| AlertFeed.ClearAfterTick | src/App.tsx:126-129 | Clearing is idempotent. A clear after an emission hides the flag but keeps the new alert as pointer and history head. |
| AlertFeed.TickPreservesValid | src/App.tsx:114-128 | A tick keeps the feed invariant: ≤ 20 alerts, duplicate-free trader lists, and a raised flag only with a pointer. The pointer is the history's head. |
| AlertFeed.ClearPreservesValid | src/App.tsx:129 | A clear keeps the feed invariant. |
| AlertFeed.Run | src/App.tsx:108-134 | Over any sequence of ticks and clears: the history never grows past 20 (or past its starting length, if larger). Events that emit nothing leave history and pointer unchanged. A final clear leaves the notification hidden. A final emitting tick leaves it shown, pointing at the history head. |
| AlertFeed.RunPreservesValid | src/App.tsx:108-134 | Every state reached by ticks and clears from a valid state is valid. |
| AlertFeed.SeedTimestamp | src/App.tsx:78 | A seed alert's timestamp lies within the 24 hours before the clock reading. |
| AlertFeed.TruncateMs | src/App.tsx:78 | A fractional millisecond count becomes a `Date` by dropping its fraction toward zero: the result has the same sign and lies within one millisecond of it, on the zero side. |
| AlertFeed.GenerateAlerts | src/App.tsx:61-82 | There are 5 seed alerts with ids 1..5 and the listed coins. Each has 1 to 8 distinct names from the 8-name pool and a timestamp in the day before its own clock reading. |
| AlertFeed.Initial | src/App.tsx:99-104 | The mounted state holds the 5 seed alerts, no pointer and no notification, and satisfies the feed invariant. |
| AlertFeed.ReachableStatesValid | src/App.tsx:102-134 | From mount, after any ticks and clears, the history has at most 20 alerts and none repeats a trader name. |
| Traders.ToggleFollow | src/App.tsx:136-140 | The length and order are kept. Records with another id are untouched. The matching record changes only in `isFollowing`, which is negated. |
| Traders.ToggleFollowTwice | src/App.tsx:136-140 | Toggling the same id twice restores the original list. |
| Traders.ToggleFollowAbsent | src/App.tsx:136-140 | Toggling an id no trader has leaves the list unchanged. |
| Traders.ToggleFollowCommutes | src/App.tsx:136-140 | Toggles of two ids give the same list in either order. |
| Search.Lower | src/App.tsx:143 | ASCII lower-casing keeps the length and leaves no upper-case letter. It changes only upper-case letters, and each to its lower-case form. |
| Search.LowerIdempotent | src/App.tsx:143 | Lower-casing twice is lower-casing once. |
| Search.Includes | src/App.tsx:143 | `s.includes(sub)` holds exactly when sub occurs at some index of s. |
| Search.FilterTraders | src/App.tsx:142-144 | The filtered traders are an order-preserving subsequence. A trader is kept iff its lower-cased name contains the lower-cased query. |
| Search.EmptyQueryKeepsAll | src/App.tsx:142-144 | The empty query keeps every trader, in order. |
| Search.FilterAppend | src/App.tsx:142-144 | Filtering a concatenation is the concatenation of the filtered parts. |
| Search.FilterIgnoresQueryCase | src/App.tsx:142-144 | Queries equal up to ASCII case select the same traders. |
| Search.FilterIdempotent | src/App.tsx:142-144 | Filtering twice with one query is filtering once. |
| Search.WhaleQueryFindsCryptoWhale | src/App.tsx:142-144 | "whale" and "WHALE" both match the trader "CryptoWhale". |
| Generate.PortfolioCents | src/App.tsx:54 | A portfolio value is between $100,000 and $10,000,000, in whole cents. |
| Generate.MakeTrader | src/App.tsx:47-57 | The record at index i has id and rank i + 1 and the cycled name. Its value is in range. It follows iff the draw exceeds 0.7. It has 3 recent trades from the 10-coin pool. |
| Generate.Unsorted | src/App.tsx:47-57 | There is one record per input, in generation order. Ids strictly increase; each record's id and rank are its index plus one, and its name is the one built for that index. |
| Generate.InsertByValue | src/App.tsx:58 | Inserting into a non-increasing list keeps it non-increasing and adds exactly the new record. |
| Generate.SortByValue | src/App.tsx:58 | The sort is a permutation that is non-increasing in portfolio value. |
| Generate.SortIsStable | src/App.tsx:58 | Records that arrive in id order leave the sort ordered by value, with equal values in id order. |
| Generate.InsertByValueStable | src/App.tsx:58 | Inserting a record with a smaller id than all placed records keeps equal values in id order. |
| Generate.GenerateTraders | src/App.tsx:47-58 | There are 100 records, a permutation of the generated ones, non-increasing in value. Ids are exactly 1..100, pairwise distinct. Every rank equals its id and every name is the one built for its index. |
| Generate.CycledName | src/App.tsx:49 | The name at index i starts with the pool entry i mod 30; before the first wrap it is exactly that entry. From the second pass on, the rest of the name reads as the pass number counted from one. |
| Generate.PoolNamesEndInLetters | src/App.tsx:36-43 | No pool name ends in a digit. |
| Generate.CycledNamesDistinct | src/App.tsx:49 | Cycling 30 distinct letter-ending names, with a one-digit round suffix from the second round on, gives distinct names for the first 270 indices. |
| Generate.StrictMaximumFirst | src/App.tsx:58 | The record with the strictly largest value comes first after the sort. |
| Generate.RankIsNotPosition | src/App.tsx:57-58 | Under concrete draws, the first sorted trader has rank 2, not 1. The corrected generator gives it rank 1. |
| Generate.GenerateTradersRanked | src/App.tsx:57-58 | Corrected ranking: the trader at position i has rank i + 1 and is otherwise the same record. A smaller rank never has a smaller value. |
| Generate.ToggleKeepsGeneratedOrder | src/App.tsx:136-140 | Toggling a follow keeps the value order, the set of ids and every rank. |

## Left out

- Rendering: the JSX markup, styling, tab switching and the display slices (`slice(0, 8)`, `slice(0, 20)`, …) are presentation only.
- Timers: `setInterval`, `setTimeout`, the React effect scheduling and interval cleanup are runtime behaviour. A tick and a clear are explicit transitions, and `Run` applies any sequence of them.
- Alert id uniqueness: ids come from `Date.now()`, a clock reading passed in, and nothing about distinct readings is claimed.
- Floating-point fields: `pnl`, `pnlPercent`, `winRate`, `priceAtAlert` and `currentPrice` are not in the datatypes. `formatCurrency` and the average win rate are not modelled. None of them feeds any modelled operation.
- Generate.PortfolioCents: computed in exact real arithmetic, not IEEE doubles. Its rounding can differ from the source's in the last cent.
- AlertFeed.Tick: compares the gate draw with the exact real 0.7, not the double nearest to it.
- Search.Lower: folds ASCII letters only. Full Unicode `toLowerCase` is not modelled.
- Generate.CycledNamesDistinct: takes the pairwise distinctness of the pool as a hypothesis. That the 30 literal pool names differ is not proved, so distinct names for the 100 generated traders are not stated.
- Avatar URLs and `generateTrendingCoins`: static strings and literal data with nothing to state.

## Findings

| source | as written | input that shows it | evidently intended | confidence | as-written member | corrected member |
|---|---|---|---|---|---|---|
| src/App.tsx:57-58 | `rank: i + 1` is set before `.sort(...)`. After the sort, a trader's rank is its generation index + 1, not its position. The traders grid styles its top-3 badges by `trader.rank` (src/App.tsx:462-466), so they go to the first three generated traders, not the three largest portfolios the dashboard numbers #1 to #3 (src/App.tsx:313-318). | All portfolio draws 0.0 except 0.5 for the second trader. The first sorted trader then has rank 2. | Rank = position + 1 after the sort, so rank order matches portfolio order. | medium, not executed | Generate.GenerateTraders, Generate.RankIsNotPosition | Generate.GenerateTradersRanked |
