# Stock dashboard: ranking, valuation and list logic

This project models the computational core of a personal stock dashboard.
The dashboard has a React front end and a Django/tastypie back end. The
model covers seven pieces of it:

- **Ranking scores** (`RankingScores.dfy`). Daily Top-N snapshots are
  aggregated into one score per symbol: a symbol at index `i` of a list of
  length `N` earns `N - i`, and each snapshot that misses it costs one
  point. The module also models the derived rankings: scores by total,
  the five "interests", and the lists ranked by how often a symbol appears,
  split at 50%.
- **DCF valuation** (`Dcf.dfy`). It selects the latest positive figure
  from the chronological statements (capital structure, free cash flow,
  operating cash flow) and computes the cost of equity and the WACC. It
  models the two-phase discounted projection of income, the guarded
  Gordon-growth terminal value and the per-share figures. It also models
  the input handlers of the DCF panel, which live in a component with
  state.
- **Bar-race playback** (`BarRace.dfy`). This covers the list of dates,
  the playback state (`on`, `pause`, `progress`) with its toggle, rerun and
  tick, and the frame pipeline: filter by date, sort, sign filter, top
  ten, axis bounds.
- **Back-end ranking helpers** (`StockApi.dfy`).
  - `_get_object_list_helper`: filter, sort, keep the first row of each
    symbol.
  - `_rank_by`: filter and sort.
  - `build_filters` and `apply_filters`: filter statistics by id and by
    symbol.
  - The diary rule that tags new content with the stock's symbol.
- **Sector membership** (`SectorLink.dfy`). `handle_update` changes the
  first sector with a given name, in place. The `checked` flag is derived
  from the sector's entries.
- **Stock search list** (`StockSearch.dfy`). This covers the normalised
  search term, substring filtering, selectors sorted by symbol, and one
  route per stock.
- **Summary page** (`SummaryPage.dfy`). This covers the tokenizer for
  interests, `parseInt(_, 16)`, the font-contrast rule, and the
  `highlights` map.

Three modules hold shared definitions:

- `Wrappers.dfy` has `Option` and `Result`.
- `Lists.dfy` has lodash-style `filter`, `reverse`, `slice`, `indexOf`,
  distinct elements, and a stable insertion sort by a total preorder.
  Lemmas there prove that the sort is sorted, a permutation and stable.
- `Text.dfy` has ASCII white space, upper-casing, substring search,
  trimming, splitting and joining, decimal rendering and parsing, and
  lexicographic order.

Numbers follow the source's intent, not its machine representation:

- JavaScript and Python numbers in the valuation and the bar race are
  Dafny `real`.
- Counters and identifiers are `int`.
- A JavaScript result that would be `NaN` or `Infinity` is `None`. This
  covers division by zero and arithmetic on an `undefined` free cash flow.

Three behaviours of the code are easy to miss and are modelled as written:

- The free cash flow (`fcf`) has no zero fallback
  (`frontend/src/stocks/dcf.jsx:24-26`). `filter(reverse(...), x > 0)[0]`
  is `undefined` when no cash-flow statement has a positive
  `free_cash_flow`. It is therefore an `Option`, and the terminal value and
  the per-share figures that use it are `None` when it is absent. The
  operating cash flow and the capital structure, by contrast, fall back to
  0 (`dcf.jsx:17-21`, `dcf.jsx:118-123`).
- The id and resource of a score come from the LAST row of `stocks` with
  that symbol (`frontend/src/components/dashboard/RankingScores/index.jsx:38-43`).
  The lookup `new Map([...new Set(pairs)])` builds its set from fresh
  two-element arrays, so it removes nothing, and `Map` keeps the last pair
  per key.
- The rankings reverse a stable ascending `sortBy`
  (`frontend/src/components/dashboard/RankingScores/index.jsx:83-88` and
  `:99-104`). Scores with equal keys therefore come out in the reverse of
  their discovery order.

## Model

| member | source | states |
|---|---|---|
| RankingScores.LastPick | frontend/src/components/dashboard/RankingScores/index.jsx:38-43 | the lookup misses exactly when no pick has the symbol; a hit is the pick at the last position with that symbol |
| RankingScores.TallyOf | frontend/src/components/dashboard/RankingScores/index.jsx:47-68 | the on-list and missing counts add up to the number of snapshots; `positive >= on_it_count`; `positive == 0` iff the symbol was never on a list |
| RankingScores.TallyUpTo | frontend/src/components/dashboard/RankingScores/index.jsx:52-68 | the same three facts after the first `n` snapshots: the invariant of the inner loop |
| RankingScores.Scores | frontend/src/components/dashboard/RankingScores/index.jsx:45-79 | one score per distinct symbol |
| RankingScores.TallySymbol | frontend/src/components/dashboard/RankingScores/index.jsx:48-68 | the counters updated by the inner `forEach` (with `indexOf` for the position) end equal to the specification tally |
| RankingScores.ComputeScores | frontend/src/components/dashboard/RankingScores/index.jsx:45-79 | the nested loops that push onto `scores` produce exactly the specified score list |
| RankingScores.ScoreInvariants | frontend/src/components/dashboard/RankingScores/index.jsx:47-78 | every score has `on + missing == #snapshots`, `total == positive - missing`, `positive >= on`, `positive == 0` iff `on == 0`, and `on >= missing` iff it appears in at least half of the snapshots |
| RankingScores.ScoresOnePerSymbol | frontend/src/components/dashboard/RankingScores/index.jsx:37-47 | the scored symbols are exactly the symbols of `stocks`, each once, in first-appearance order |
| RankingScores.ScoresUseLastRow | frontend/src/components/dashboard/RankingScores/index.jsx:38-43 | each score's `stock_id` and `stock_resource` come from the last row of `stocks` with its symbol |
| RankingScores.ByTotalIsTotalPreorder | frontend/src/components/dashboard/RankingScores/index.jsx:83-88 | the sort key `total` orders scores by a total preorder |
| RankingScores.RankByScoreDescending | frontend/src/components/dashboard/RankingScores/index.jsx:83-88 | a permutation of the scores with `total > 0`, non-increasing in `total`, with every group of equal totals in reverse input order |
| RankingScores.MyInterests | frontend/src/components/dashboard/RankingScores/index.jsx:93-96 | at most five ids, the `stock_id`s of the head of the ranking, in order; fewer only when the ranking is shorter |
| RankingScores.MyInterestsAreTopScores | frontend/src/components/dashboard/RankingScores/index.jsx:83-96 | there are `min(5, #positive scores)` interests, and no positive score left out has a higher total than a chosen one |
| RankingScores.ByOnItCountIsTotalPreorder | frontend/src/components/dashboard/RankingScores/index.jsx:99-104 | the sort key `on_it_count` orders scores by a total preorder |
| RankingScores.RankByOnItCount | frontend/src/components/dashboard/RankingScores/index.jsx:99-104 | a permutation of the scores with `on_it_count > 0`, non-increasing in `on_it_count`, with ties in reverse input order |
| RankingScores.OccurrencePartition | frontend/src/components/dashboard/RankingScores/index.jsx:107-116 | the upper (`on >= missing`) and lower (`on < missing`) lists together are exactly the scores that were on some list, and each keeps the non-increasing `on_it_count` order |
| Dcf.LatestPositiveSpec | frontend/src/stocks/dcf.jsx:117-123 | `filter(reverse(xs), x > 0)[0]` is undefined iff no figure is positive; otherwise it is the last positive figure in chronological order, and it is positive |
| Dcf.CapitalStructureSpec | frontend/src/stocks/dcf.jsx:14-21 | the capital structure is the floor of the last positive balance figure, or 0 when there is none; it is never negative |
| Dcf.FreeCashFlowSpec | frontend/src/stocks/dcf.jsx:23-26 | `fcf` is the last positive free cash flow, and undefined (no zero fallback) iff none is positive |
| Dcf.OperatingCashFlowSpec | frontend/src/stocks/dcf.jsx:117-123 | `cash_flow` is the last positive operating cash flow, or 0 when there is none; it is never negative |
| Dcf.WaccWeights | frontend/src/stocks/dcf.jsx:109-111 | with no debt the WACC is the cost of equity, with all debt it is the after-tax debt cost, and in between it lies between the two |
| Dcf.PowZero | frontend/src/stocks/dcf.jsx:129-130 | `Math.pow(x, n)` for `n >= 0` is zero exactly when `x == 0` and `n >= 1`, so a period's discount factor vanishes only when `wacc == -1` |
| Dcf.OptAddAssociative | frontend/src/stocks/dcf.jsx:125-145 | adding partial sums that may be undefined does not depend on grouping, so the two loops may be summed separately |
| Dcf.IncomeCountsPeriods | frontend/src/stocks/dcf.jsx:125-145 | with no growth and no discounting, `income` is the cash flow counted `project_year + 1` times: both loops together visit each period `0..project_year` once |
| Dcf.RepeatIsProduct | frontend/src/stocks/dcf.jsx:125-145 | counting a cash flow `k` times gives `k * cash_flow` |
| Dcf.FlatSum | frontend/src/stocks/dcf.jsx:141-145 | a loop over periods `lo..hi` with no growth or discounting adds `hi - lo + 1` cash flows |
| Dcf.DiscountedSumDefined | frontend/src/stocks/dcf.jsx:128-145 | a run of discounted periods is defined unless `wacc == -1` and the run contains a period `i >= 1` |
| Dcf.DiscountedSumZero | frontend/src/stocks/dcf.jsx:128-145 | with a zero cash flow, every defined run of discounted periods sums to 0 |
| Dcf.IncomeZeroCashFlow | frontend/src/stocks/dcf.jsx:125-145 | `cash_flow == 0` gives `income == 0`, except in the undefined case `wacc == -1` with a period beyond 0 |
| Dcf.ProjectIncome | frontend/src/stocks/dcf.jsx:125-145 | the two `for` loops accumulate exactly the sum of periods `0..⌊py/2⌋` grown at `g/100` and periods `⌊py/2⌋+1..py` grown at `g/200`, each discounted by `(1+wacc)^i` |
| Dcf.TerminalValueGuard | frontend/src/stocks/dcf.jsx:149-154 | the terminal value is 0 when `wacc <= tgr/100`; otherwise it solves `tv * (wacc - t) == fcf * (1 + t)`, is undefined without `fcf`, and is positive when `fcf > 0` and `t > -1` |
| Dcf.ValuationPerShare | frontend/src/stocks/dcf.jsx:149-158 | `dcf` is defined iff the shares are non-zero and income and terminal value are both defined, and is then their sum over the shares; `dcf_last_price` is defined iff `dcf` is and the price is non-zero, and times the price gives `dcf`; the terminal value is undefined only for a missing `fcf` under the guard |
| Dcf.ValuateNotApplicable | frontend/src/stocks/dcf.jsx:97-100 | no valuation is produced exactly when `balances` is empty |
| Dcf.DcfView.constructor | frontend/src/stocks/dcf.jsx:8-37 | the initial inputs are 1.242, 7, 10, 7, 5 years and 1, with the selected `fcf` and capital structure |
| Dcf.DcfView.RiskFreeChange | frontend/src/stocks/dcf.jsx:48-52 | sets the risk-free rate and leaves every other input as it was |
| Dcf.DcfView.MarketPremiumChange | frontend/src/stocks/dcf.jsx:53-57 | sets the market premium and nothing else |
| Dcf.DcfView.CostOfDebtChange | frontend/src/stocks/dcf.jsx:58-62 | sets the cost of debt and nothing else |
| Dcf.DcfView.GrowthRateChange | frontend/src/stocks/dcf.jsx:63-67 | sets the growth rate and nothing else |
| Dcf.DcfView.CapitalStructureChange | frontend/src/stocks/dcf.jsx:68-72 | sets the capital structure and nothing else |
| Dcf.DcfView.ProjectYearChange | frontend/src/stocks/dcf.jsx:73-77 | sets the projection horizon and nothing else |
| Dcf.DcfView.TerminalGrowthChange | frontend/src/stocks/dcf.jsx:78-82 | sets the terminal growth rate and nothing else |
| Dcf.DcfView.Render | frontend/src/stocks/dcf.jsx:84-158 | the figures computed for the current inputs are the valuation whose parts the lemmas above describe |
| BarRace.DatesNoDup | frontend/src/components/dashboard/DailyRankingBarRaceChart/index.jsx:23 | `dates` has no repeated date |
| BarRace.DatesMembers | frontend/src/components/dashboard/DailyRankingBarRaceChart/index.jsx:23 | a date is in `dates` iff some row has it |
| BarRace.DatesOrder | frontend/src/components/dashboard/DailyRankingBarRaceChart/index.jsx:23 | `dates` lists the dates in the reverse of their first-appearance order |
| BarRace.ProgressIsRounded | frontend/src/components/dashboard/DailyRankingBarRaceChart/index.jsx:129 | the integer progress is `Math.round((on+1)/n*100)`: the integer `p` with `p <= x + 1/2 < p + 1` |
| BarRace.ProgressBounds | frontend/src/components/dashboard/DailyRankingBarRaceChart/index.jsx:129-136 | for a valid frame, progress lies in `0..100` and is 100 at the last frame |
| BarRace.TicksFromStart | frontend/src/components/dashboard/DailyRankingBarRaceChart/index.jsx:139-141 | after `k` unpaused ticks from frame 0, `on == min(k, n-1)` (and 0 when there are no dates) |
| BarRace.ByMetricIsTotalPreorder | frontend/src/components/dashboard/DailyRankingBarRaceChart/index.jsx:43 | the sort key, the row's metric, orders rows by a total preorder |
| BarRace.NegativeFrameSpec | frontend/src/components/dashboard/DailyRankingBarRaceChart/index.jsx:43-50 | negative mode shows `min(10, #negative rows)` of the day's negative rows, ascending, and no row left out is below a shown one |
| BarRace.PositiveFrameSpec | frontend/src/components/dashboard/DailyRankingBarRaceChart/index.jsx:43-62 | positive mode shows `min(10, #non-negative rows)` of the day's non-negative rows, descending, and no row left out is above a shown one |
| BarRace.SortedRun | frontend/src/components/dashboard/DailyRankingBarRaceChart/index.jsx:43-59 | filtering the sorted day by sign gives a sorted permutation of the day's rows of that sign |
| BarRace.FrameRows | frontend/src/components/dashboard/DailyRankingBarRaceChart/index.jsx:40-62 | a frame has at most ten rows, all from the current date and of the mode's sign |
| BarRace.FrameBounds | frontend/src/components/dashboard/DailyRankingBarRaceChart/index.jsx:38-69 | `min_value <= max_value`; both are 0 for an empty frame; otherwise they are the metrics of shown rows and bound every shown metric |
| BarRace.WithBoundsSpec | frontend/src/components/dashboard/DailyRankingBarRaceChart/index.jsx:53-68 | reading the axis bounds off the first and last rows of an ordered frame gives its least and greatest metric |
| BarRace.BarRaceChart.constructor | frontend/src/components/dashboard/DailyRankingBarRaceChart/index.jsx:23-26 | playback starts at frame 0, unpaused, with progress 0 |
| BarRace.BarRaceChart.TogglePause | frontend/src/components/dashboard/DailyRankingBarRaceChart/index.jsx:29 | negates `pause` and changes nothing else, so two toggles restore the state |
| BarRace.BarRaceChart.Rerun | frontend/src/components/dashboard/DailyRankingBarRaceChart/index.jsx:32-35 | restores `on == 0` and `pause == false`, keeping the frame index valid |
| BarRace.BarRaceChart.Refresh | frontend/src/components/dashboard/DailyRankingBarRaceChart/index.jsx:127-129 | the progress bar is recomputed from the current frame; `on` and `pause` are unchanged |
| BarRace.BarRaceChart.Tick | frontend/src/components/dashboard/DailyRankingBarRaceChart/index.jsx:132-141 | a paused tick changes nothing; an unpaused one sets the progress of the current frame and advances `on` only while it is below the last frame, so `on` stays a valid index |
| BarRace.BarRaceChart.CurrentFrame | frontend/src/components/dashboard/DailyRankingBarRaceChart/index.jsx:37-69 | the frame shown for `dates[on]` has at most ten bars, each a row of that date with the sign of the mode, and axis bounds with `min_value <= max_value` that enclose every bar and are both 0 for an empty frame |
| StockApi.StatOrderTotal | backend/stock/api.py:746-748 | the key `val` (with the direction flag) orders ranked entries by a total preorder |
| StockApi.ObservationOrderTotal | backend/stock/api.py:648-652 | the key of `sorted` orders observations by a total preorder in either direction |
| StockApi.SeenBefore | backend/stock/api.py:662-663 | a row is skipped iff its symbol is in `counted`, the symbols of the rows before it |
| StockApi.GetObjectListHelper | backend/stock/api.py:604-676 | the loop over the sorted rows with `counted` returns exactly the specified list |
| StockApi.KeepFirstDistinct | backend/stock/api.py:659-674 | after deduplication each symbol occurs at most once |
| StockApi.ObjectListDistinct | backend/stock/api.py:659-676 | the helper's result lists each symbol at most once |
| StockApi.ObjectListOrdered | backend/stock/api.py:648-676 | the result is ordered by `val`: non-increasing when `high_to_low`, non-decreasing otherwise |
| StockApi.ObjectListComplete | backend/stock/api.py:642-676 | every symbol with a valid row in the last 180 days has an entry |
| StockApi.ObjectListExtreme | backend/stock/api.py:648-674 | the entry kept for a symbol has its maximum value when `high_to_low`, its minimum otherwise |
| StockApi.ObjectListFromValidRows | backend/stock/api.py:638-647 | every entry comes from a row dated within 180 days of the cut-off whose value is neither missing, 0 nor -100 |
| StockApi.RankBy | backend/stock/api.py:731-750 | the appending loop, filter and sort return exactly the specified ranking |
| StockApi.RankOfSpec | backend/stock/api.py:739-750 | the ranking is a sorted permutation of the valid entries (duplicates kept), a member iff valid, with ties in input order |
| StockApi.StatSummary.constructor | backend/stock/api.py:526-530 | a ranking holds its id, name and statistics |
| StockApi.ParseAll | backend/stock/api.py:565 | `map(int, ...)` yields one integer per piece or fails as a whole |
| Text.ParseIntRejectsSeparator | backend/stock/api.py:565 | `int()` does not skip the separator `\x1f`, so `"\x1f5"` is not an id |
| StockApi.UpperSymbols | backend/stock/api.py:570-572 | every requested symbol is upper-cased |
| StockApi.ParseIdsRoundTrip | backend/stock/api.py:565 | parsing a comma-separated list of rendered ids returns those ids |
| StockApi.NarrowSpec | backend/stock/api.py:564-576 | the two filters keep exactly the statistics meeting every given criterion, in order, and only remove statistics |
| StockApi.FilterStats | backend/stock/api.py:566-567 | every object's `stats` is replaced by its filtered list, in place and for aliased objects too |
| StockApi.ApplyFilters | backend/stock/api.py:559-578 | with parseable criteria every object's `stats` is narrowed by id and then by symbol; an unparseable `id__in` is an error and changes nothing |
| StockApi.BuildFilters | backend/stock/api.py:546-557 | the dictionary passed in is returned, with `id__in` copied from `stats__in` and every other key unchanged; a missing dictionary becomes a new empty one |
| StockApi.DiaryContentTags | backend/stock/api.py:902-906 | the saved content extends the text, mentions the stock's symbol, and equals the text iff there is no stock or its symbol already occurs |
| StockApi.DiaryContentIdempotent | backend/stock/api.py:902-906 | applying the tagging rule twice is the same as once |
| SectorLink.FirstNamed | frontend/src/components/stock/StockLinkToSector/index.jsx:48-57 | the index of the first sector with the event's name, or -1 when none has it |
| SectorLink.HandleUpdate | frontend/src/components/stock/StockLinkToSector/index.jsx:47-84 | only the first sector with the name is replaced, by its updated copy, and that copy is the payload; every other slot is unchanged, and nothing changes when no name matches |
| SectorLink.UpdatedSpec | frontend/src/components/stock/StockLinkToSector/index.jsx:57-70 | the update keeps id and name; a tick appends the URI at the end; a clear keeps exactly the entries not containing the URI, each as often as the sector held it, and no other entry |
| SectorLink.ClearKeepsOrder | frontend/src/components/stock/StockLinkToSector/index.jsx:63-65 | a clear keeps the surviving entries in their order: clearing a list cut at any point equals clearing each part and joining them, and one entry survives exactly when it does not contain the URI |
| SectorLink.UpdatedChecked | frontend/src/components/stock/StockLinkToSector/index.jsx:86-91 | after the update the derived `checked` flag equals the event's `checked` |
| SectorLink.ClearTwice | frontend/src/components/stock/StockLinkToSector/index.jsx:63-65 | clearing a sector twice is the same as once |
| StockSearch.NormalizeSpec | frontend/src/stocks/list.jsx:27 | the stored term has no lower-case letter and no edge white space, and normalising it again changes nothing |
| StockSearch.StockList.constructor | frontend/src/stocks/list.jsx:17-24 | the initial search term is "SBUX" |
| StockSearch.StockList.HandleChange | frontend/src/stocks/list.jsx:26-32 | the typed value is stored normalised, with no lower-case letter |
| StockSearch.FilteredSpec | frontend/src/stocks/list.jsx:40-42 | exactly the stocks whose symbol contains the term, with their multiplicities, in original order; an empty term keeps every stock |
| StockSearch.BySymbolIsTotalPreorder | frontend/src/stocks/list.jsx:67-69 | ordering stocks by symbol is a total preorder |
| StockSearch.SelectorsSpec | frontend/src/stocks/list.jsx:67-69 | the selectors are the filtered stocks sorted by symbol, a permutation of them, with equal symbols kept in filter order |
| StockSearch.Details | frontend/src/stocks/list.jsx:45-64 | one route per stock, filtered or not |
| StockSearch.DetailsNameTheirStocks | frontend/src/stocks/list.jsx:45-49 | the path of the `i`-th route reads back as the `i`-th stock's id |
| StockSearch.SelectorsHaveRoutes | frontend/src/stocks/list.jsx:67-70 | every selector links to a path that some route serves |
| SummaryPage.SplitWs | frontend/src/all/summary.jsx:21-22 | splitting on runs of white space gives at least one piece |
| SummaryPage.Interests | frontend/src/all/summary.jsx:21-24 | one interest per piece |
| SummaryPage.SplitWsNoSpace | frontend/src/all/summary.jsx:22 | no piece contains white space |
| SummaryPage.SplitWsShape | frontend/src/all/summary.jsx:22 | only the first and last piece can be empty, and the first is not when the input starts with a non-space |
| SummaryPage.SplitWsSeveral | frontend/src/all/summary.jsx:22 | an input with white space splits into at least two pieces |
| SummaryPage.SplitWsStartsEmpty | frontend/src/all/summary.jsx:22 | leading white space gives an empty first piece |
| SummaryPage.SplitWsEndsEmpty | frontend/src/all/summary.jsx:22 | trailing white space gives an empty last piece |
| SummaryPage.SplitWsWord | frontend/src/all/summary.jsx:22 | a word before white space is glued to the first piece of the rest |
| SummaryPage.SplitWsJoin | frontend/src/all/summary.jsx:22 | splitting tokens joined by single spaces returns the tokens, when no token has white space and only the end tokens may be empty |
| SummaryPage.InterestsAreUpperPieces | frontend/src/all/summary.jsx:21-24 | each interest is its piece upper-cased, and no interest has white space or a lower-case letter |
| SummaryPage.EdgeSpaceGivesEmptyInterest | frontend/src/all/summary.jsx:21-24 | leading or trailing white space gives an empty first or last interest |
| SummaryPage.ShownReadsBack | frontend/src/all/summary.jsx:61 | the interests shown joined by spaces read back as the same interests |
| SummaryPage.Summary.constructor | frontend/src/all/summary.jsx:9-13 | the interests start empty |
| SummaryPage.Summary.HandleChange | frontend/src/all/summary.jsx:19-30 | the stored interests are the tokens of the typed value |
| SummaryPage.HexDigitValue | frontend/src/all/summary.jsx:33 | `0`-`9` are worth 0 to 9, and `a`-`f` and `A`-`F` alike are worth 10 to 15 |
| SummaryPage.HexRunSpec | frontend/src/all/summary.jsx:33 | `parseInt` reads the longest prefix of hexadecimal digits |
| SummaryPage.ToHex | frontend/src/all/summary.jsx:43 | `toString(16)` writes at least one hexadecimal digit |
| SummaryPage.HexValueToHex | frontend/src/all/summary.jsx:43 | the digits written by `toString(16)` have the value of the number |
| SummaryPage.ParseHexToHex | frontend/src/all/summary.jsx:43-44 | `parseInt(n.toString(16), 16) == n` |
| SummaryPage.ContrastOfGenerated | frontend/src/all/summary.jsx:32-34 | a generated colour gets the dark font iff its value exceeds `0xffffff / 2`, otherwise the light one |
| SummaryPage.ContrastOfUnreadable | frontend/src/all/summary.jsx:32-34 | `parseInt(_, 16)` is `NaN` exactly when no hexadecimal digit follows the skipped white space, sign and `0x`, and such a background gets the light font |
| SummaryPage.ContrastRule | frontend/src/all/summary.jsx:32-34 | the font is dark iff the background reads as a number above `0xffffff / 2`, and light otherwise, `NaN` included |
| SummaryPage.UnreadablePrefixOnly | frontend/src/all/summary.jsx:33 | `"0xzz"` is unreadable: the prefix is skipped and no digit follows |
| SummaryPage.UnreadableSignLetter | frontend/src/all/summary.jsx:33 | `"-g"` is unreadable: a sign with no digit after it |
| SummaryPage.UnreadableSignOnly | frontend/src/all/summary.jsx:33 | a lone sign, `"+"` or `"-"`, is unreadable |
| SummaryPage.FromEntriesKeys | frontend/src/all/summary.jsx:53 | `Object.fromEntries` has exactly the keys of its pairs |
| SummaryPage.FromEntriesLast | frontend/src/all/summary.jsx:53 | a key maps to the value of its last pair: later duplicates overwrite earlier ones |
| SummaryPage.HighlightsSpec | frontend/src/all/summary.jsx:42-53 | the keys of `highlights` are exactly the interests; each maps to the colour drawn for its last occurrence, with the font chosen by the contrast rule |

## Left out

- Rendering is not modelled: JSX, ECharts, Material-UI, `toFixed` formatting and class names.
- Network calls and notifications are not modelled (`update(...)`, `setNotification`, REST fetches). `SectorLink.HandleUpdate` returns the payload it would send instead.
- Timers are not modelled (`setTimeout`/`clearTimeout`). The tick is the explicit method `BarRace.BarRaceChart.Tick`, and the progress set on each render is `BarRace.BarRaceChart.Refresh`.
- React `setState` is modelled as an immediate assignment; batching and re-rendering are not modelled.
- `Math.random` is not modelled. The colour numbers drawn for the interests are a parameter of `SummaryPage.Highlights`.
- `date.today()` is not modelled. The cut-off day is a parameter (`today`, a day number) of `StockApi.GetObjectListHelper`.
- Django querysets and the ORM are not modelled. Query results are sequences, and `getattr(x, sort_by)` is the `val` field of a row.
- Floating point is not modelled: IEEE rounding is replaced by exact `real` arithmetic. `NaN`/`Infinity` results are `None`.
- Coercion of `event.target.value` strings to numbers is not modelled. The DCF handlers take numbers.
- Text functions are ASCII only. White space is the ASCII white-space characters. Unicode white space matched by JavaScript's `\s` and skipped by Python's `int()`, the non-ASCII decimal digits Python's `int()` also accepts (such as Arabic-Indic `"٥"`, which `Text.ParseInt` rejects), and Unicode case mapping in `toUpperCase`/`upper`, are not modelled.
- Python `int()` is modelled on surrounding white space, a sign and decimal digits. It does not accept the underscores Python also allows.
- `parseInt(_, 16)` ignores leading white space, reads an optional sign and an optional `0x` prefix, and reads the longest run of hexadecimal digits. Its behaviour on digits beyond 2^53 is not modelled.
- Dcf.IncomeCountsPeriods: the count of summed periods is stated for zero growth and zero discount rate, where each period contributes the cash flow itself. The general term for every period is the definition `Dcf.Income`, which `Dcf.ProjectIncome` ties to the two loops.
- StockApi.ParseIdsRoundTrip: stated for non-negative ids, the only ids the database issues.
- The data flow between components (which `stocks`/`ranks` props reach each view) is not modelled. Each core operation takes its inputs as parameters.
- Authentication, the tastypie resource classes and the ORM-backed `obj_create`/`obj_update` are not modelled, apart from the diary content rule.
