# Trade copying: a verified model

This project models the core of a trade-copying platform in Dafny. Signal providers
publish trades on signal accounts. Subscribers follow those accounts with one or more
of their own trade accounts.

The model covers three serverless handlers that keep the database in step:

- `copy_trade` fans a new trade out to every active subscription. It inserts one
  copied trade per active (subscription, trade-account) link, with the lot size scaled
  by the subscription's multiplier.
- `close_trade` closes a trade. It then closes each of its copies, with the profit
  scaled by the copy's lot size relative to the source trade's lot size.
- `update_performance_stats` recomputes each active signal account's all-time
  statistics: trade count, wins, losses, win rate and total profit.

It also models the list logic of five dashboard components:

- the provider directory: search, sort, pages, the page-button window and the
  page navigation;
- the subscriber's copied-trades filter;
- the provider's trades panel: account choice and open/closed split;
- the sidebar: its current-page rule and its role-based entries;
- the subscriptions panel: its trial tabs and badges.

## Layout

- `ledger.dfy`, module `Ledger`: the table rows, the handler errors and the store
  faults. It also holds the class `Database`, whose fields are the tables. `Valid()`
  says trade ids are unique and copied-trade ids are increasing and below the next
  free id.
- `copy_trade.dfy`, `close_trade.dfy`, `update_performance_stats.dfy`: one module per
  handler. Each has specification functions, the lemmas about them, and imperative
  methods that change the `Database`. Each method's `modifies` names exactly the
  tables that handler writes. Its loops and `ensures` are proved against the
  specification functions.
- `providers_list.dfy`, `copied_trades_section.dfy`, `trades_section.dfy`,
  `sidebar.dfy`, `subscriptions_section.dfy`: the UI logic.
  - The expressions are functions.
  - The provider directory's page state is the class `ProvidersList.ProviderBrowser`.
    Its methods are the button handlers.
- `seqs.dfy` and `text.dfy` are shared helpers:
  - `Seqs`: order-preserving filter, subsequence and counting lemmas.
  - `Text`: ASCII lower-casing, `includes`, `startsWith`.

Handlers answer with `Result<T>`, whose error values are the handlers' messages. A
store failure is the parameter `fault`: the n-th read query or the n-th write of one
invocation fails. Otherwise the store behaves as an in-memory table.

## Model

| member | source | states |
|---|---|---|
| Ledger.TradeIndex | supabase/functions/copy_trade/index.ts:33-37 | the `.eq("id", …).single()` lookup finds a row with the requested id; it finds none exactly when no row has that id |
| Ledger.TradeIndexUnique | src/types/database.types.ts:172-224 | with `id` as primary key, the lookup returns the one row holding that id |
| Ledger.Database.constructor | src/types/database.types.ts:111-265 | a fresh database holds the given trades, subscriptions, links and accounts, no copies and no stats, and satisfies the key constraints |
| CopyTrade.ActiveLinkAccounts | supabase/functions/copy_trade/index.ts:55-60 | the embedded trade accounts of a subscription are exactly those of its links with `is_active = true` |
| CopyTrade.EffectiveMultiplier | supabase/functions/copy_trade/index.ts:74-75 | `multiplier \|\| 1.0`: null and 0 behave as 1.0; any other value is used as is; the result is never 0 |
| CopyTrade.FanOutPairsExactlyEligible | supabase/functions/copy_trade/index.ts:46-60 | a (subscription, trade account) pair gets a row iff the subscription is on the trade's signal account, has status `active`, and has an active link to that account |
| CopyTrade.InactiveSubscriptionNeverCopied | supabase/functions/copy_trade/index.ts:59 | a subscription whose status is not `active` (trial, expired, cancelled, null) never gets a copy |
| CopyTrade.FanOutPairCount | supabase/functions/copy_trade/index.ts:71-72 | the number of rows inserted equals an independent count: active links summed over eligible subscriptions |
| CopyTrade.NewRowsFaithful | supabase/functions/copy_trade/index.ts:74-87 | every inserted row carries the trade's id and status, the subscription's id, an active link's trade account and a null profit; its lot size is the trade's lot times the effective multiplier |
| CopyTrade.BasicFanOutScenario | supabase/functions/copy_trade/index.ts:71-101 | one active subscription with multiplier 2.0 and one active link turn a 0.5-lot trade into exactly one 1.0-lot copy |
| CopyTrade.InsertForSubscription | supabase/functions/copy_trade/index.ts:72-100 | the inner loop appends the subscription's rows in link order; a failed insert stops it after the rows already made; ids stay increasing |
| CopyTrade.InsertCopiedTrades | supabase/functions/copy_trade/index.ts:71-101 | the nested loop appends exactly the fan-out rows in loop order; on the n-th insert failing, exactly the first n rows stay (no rollback); the count is the number of rows inserted |
| CopyTrade.CopyTrade | supabase/functions/copy_trade/index.ts:16-107 | a missing id, a failed or empty trade lookup and a failed subscriptions query all fail before any insert; otherwise the rows are as in InsertCopiedTrades and the reply carries the trade and the count; trades, subscriptions and links are never written |
| CloseTrade.CloseSource | supabase/functions/close_trade/index.ts:33-41 | the source trade gets status "Closed", the close price as current price, the caller's profit and a close time; every other column is kept |
| CloseTrade.CloseCopied | supabase/functions/close_trade/index.ts:67-77 | a copy gets status "Closed", a close time and the profit `profit * (copy lot / source lot)`; lot size, ids and open time are kept |
| CloseTrade.MatchingIndices | supabase/functions/close_trade/index.ts:50-54 | the copied-trades query returns every row with that `trade_id`, only those, in table order |
| CloseTrade.MatchingIndicesExact | supabase/functions/close_trade/index.ts:50-54 | a row is returned by the query iff its `trade_id` is the closed trade's id |
| CloseTrade.CloseRowsOnlyCopiesOfTrade | supabase/functions/close_trade/index.ts:65-89 | reconciliation closes every copy of the trade and leaves every other copied row as it was; no row is added or removed |
| CloseTrade.ProfitPerLotEqual | supabase/functions/close_trade/index.ts:67-68 | every closed copy earns the same profit per lot as the source trade |
| CloseTrade.FanOutThenClose | supabase/functions/close_trade/index.ts:67-68 | the copy that fan-out made for a subscription closes with the source profit times that subscription's effective multiplier |
| CloseTrade.ClosedProfitOfScaledLot | supabase/functions/close_trade/index.ts:67-68 | a copy of `sourceLot * m` lots closes with `m` times the source profit |
| CloseTrade.ShareOfScaledLot | supabase/functions/close_trade/index.ts:67-68 | the lot ratio of a copy of `sourceLot * m` lots is `m` |
| CloseTrade.ReconciliationScenario | supabase/functions/close_trade/index.ts:65-89 | a 1.0-lot copy of a 0.5-lot trade closed at profit 100 gets profit 200 |
| CloseTrade.CloseCopies | supabase/functions/close_trade/index.ts:65-89 | the loop closes the queried rows in query order and returns them; when the k-th update fails, exactly the first k-1 copies are closed; ids are kept |
| CloseTrade.CloseTrade | supabase/functions/close_trade/index.ts:16-95 | a missing id or a falsy close price (0 included) fails before any write; a failed or empty source update fails with nothing written; a failed query leaves only the source closed; a failed copy update leaves the earlier copies closed; otherwise all copies are closed and returned |
| UpdatePerformanceStats.ActiveAccountIds | supabase/functions/update_performance_stats/index.ts:27-31 | the accounts query returns exactly the ids of the accounts with `is_active = true` |
| UpdatePerformanceStats.WinRate | supabase/functions/update_performance_stats/index.ts:65 | the win rate lies in [0, 100] when wins do not exceed trades; with trades it is 0 iff there are no wins, and 100 iff every trade is a win |
| UpdatePerformanceStats.ComputeStats | supabase/functions/update_performance_stats/index.ts:58-90 | the all-time row carries the account, the trade count, the number of trades with a positive profit as wins and with a negative profit as losses (within the trade count), the win rate `WinRate(wins, total)` in [0, 100], the total of the truthy profits as return, and drawdown 0 |
| UpdatePerformanceStats.WinsAndLossesDisjoint | supabase/functions/update_performance_stats/index.ts:59-64 | a trade is a win iff its profit is present and positive, a loss iff present and negative, never both, and neither without a non-zero profit |
| UpdatePerformanceStats.WinsAndLossesCounted | supabase/functions/update_performance_stats/index.ts:59-64 | the trades the win and loss counts count are exactly the account's trades with a positive and with a negative profit |
| UpdatePerformanceStats.TotalProfitConcat | supabase/functions/update_performance_stats/index.ts:68-71 | the profit sum of two lists of trades is the sum of their sums |
| UpdatePerformanceStats.TotalProfitPermutation | supabase/functions/update_performance_stats/index.ts:68-71 | the profit sum does not depend on the order of the trades |
| UpdatePerformanceStats.StatsOrderIndependent | supabase/functions/update_performance_stats/index.ts:44-90 | the computed row depends only on which trades there are, not on the order the query returns them in |
| UpdatePerformanceStats.StatsIgnoreClock | supabase/functions/update_performance_stats/index.ts:78-90 | rows computed at two times differ only in `calculated_at` |
| UpdatePerformanceStats.AggregationScenario | supabase/functions/update_performance_stats/index.ts:58-75 | profits 50, -20, 30 and null give 4 trades, 2 wins, 1 loss, win rate 50 and return 60 |
| UpdatePerformanceStats.PutAll | supabase/functions/update_performance_stats/index.ts:78-90 | after the writes, the keys of the stats table are the old keys plus the keys of the rows written |
| UpdatePerformanceStats.RowForEachAccount | supabase/functions/update_performance_stats/index.ts:42-101 | with distinct accounts, each processed account ends up with exactly its freshly computed all-time row |
| UpdatePerformanceStats.AggregationIdempotent | supabase/functions/update_performance_stats/index.ts:42-101 | running the batch twice over unchanged trades leaves what one run at the later time leaves |
| UpdatePerformanceStats.FirstFailure | supabase/functions/update_performance_stats/index.ts:44-96 | the step where the batch stops is an account position or none; without store faults it never stops |
| UpdatePerformanceStats.NoFaultNoFailure | supabase/functions/update_performance_stats/index.ts:42-102 | without store failures every active account is visited |
| UpdatePerformanceStats.ProcessAccounts | supabase/functions/update_performance_stats/index.ts:42-101 | the loop skips accounts without trades and writes one row per other account, in order; it stops at the first failing query or upsert, keeping the rows written before it; the results list the processed accounts |
| UpdatePerformanceStats.UpdatePerformanceStats | supabase/functions/update_performance_stats/index.ts:27-104 | a failed accounts query fails with nothing written; otherwise the outcome and the stats table are those of ProcessAccounts, with the error of the failing step |
| ProvidersList.FilterProvidersExact | src/components/providers/ProvidersList.tsx:113-118 | a provider is listed iff its name, account name or description contains the search term, ignoring case |
| ProvidersList.FilterProvidersOrdered | src/components/providers/ProvidersList.tsx:113-118 | the search keeps the providers' order |
| ProvidersList.EmptySearchKeepsAll | src/components/providers/ProvidersList.tsx:107-118 | the initial empty search lists every provider |
| ProvidersList.Compare | src/components/providers/ProvidersList.tsx:121-132 | the comparator is descending in return, win rate and trade count, ascending in drawdown, and 0 for any other choice |
| ProvidersList.SortProviders | src/components/providers/ProvidersList.tsx:121 | the sort is a permutation of the filtered list |
| ProvidersList.SortProvidersSorted | src/components/providers/ProvidersList.tsx:121-132 | the sorted list is in comparator order |
| ProvidersList.SortProvidersStable | src/components/providers/ProvidersList.tsx:121 | the sort is stable: providers that compare equal keep their order |
| ProvidersList.UnknownSortKeepsOrder | src/components/providers/ProvidersList.tsx:131 | an unknown sort choice keeps the filtered order |
| ProvidersList.JsSlice | src/components/providers/ProvidersList.tsx:137-140 | `slice(start, end)` with in-range bounds is the sub-sequence between them |
| ProvidersList.Page | src/components/providers/ProvidersList.tsx:135-140 | a page holds at most five providers |
| ProvidersList.TotalPages | src/components/providers/ProvidersList.tsx:141 | the page count is the ceiling of the list length over five |
| ProvidersList.PaginationShownIffMoreThanOnePage | src/components/providers/ProvidersList.tsx:215 | the pager is shown iff the list has more than five providers |
| ProvidersList.PageContents | src/components/providers/ProvidersList.tsx:135-140 | page `k` holds the providers at positions `5k-5` up to `5k`, in list order |
| ProvidersList.PagesPartition | src/components/providers/ProvidersList.tsx:135-141 | pages 1 up to the page count, put together, are the whole list |
| ProvidersList.PagesBeyondLastEmpty | src/components/providers/ProvidersList.tsx:135-141 | a page after the last one is empty |
| ProvidersList.EndsAndCurrentShown | src/components/providers/ProvidersList.tsx:235-240 | the first, the last and the current page always get a link |
| ProvidersList.HiddenPagesMarked | src/components/providers/ProvidersList.tsx:232-267 | a page that is not rendered lies strictly between page 2 and the next-to-last page, and an ellipsis marks the gap on its side of the current page |
| ProvidersList.AtMostFiveLinks | src/components/providers/ProvidersList.tsx:232-267 | at most five page links are rendered, whatever the page count |
| ProvidersList.ProviderBrowser.constructor | src/components/providers/ProvidersList.tsx:107-109 | the initial state is an empty search, sort by return, page 1 |
| ProvidersList.ProviderBrowser.Previous | src/components/providers/ProvidersList.tsx:222-225 | the previous button moves down one page only from above page 1, and keeps the page valid |
| ProvidersList.ProviderBrowser.Next | src/components/providers/ProvidersList.tsx:272-276 | the next button moves up one page only from below the page count, and keeps the page valid |
| ProvidersList.ProviderBrowser.GoToPage | src/components/providers/ProvidersList.tsx:245-248 | a click on a rendered page link selects that page |
| ProvidersList.ProviderBrowser.SetSortBy | src/components/providers/ProvidersList.tsx:166 | a new sort choice reorders the same providers, so the page stays valid |
| ProvidersList.ProviderBrowser.SetSearchTermAsWritten | src/components/providers/ProvidersList.tsx:156 | as written, typing a search term keeps the current page |
| ProvidersList.ProviderBrowser.SetSearchTerm | src/components/providers/ProvidersList.tsx:156 | a search that also resets to page 1 always leaves a valid page |
| ProvidersList.StalePageHidesMatches | src/components/providers/ProvidersList.tsx:135-156 | as written, on page 2 a search with one match shows an empty page and no pager |
| ProvidersList.ValidPageShowsMatches | src/components/providers/ProvidersList.tsx:135-141 | on a valid page, a search with matches shows at least one of them |
| CopiedTradesSection.FilterTradesOrdered | src/components/subscriber/CopiedTradesSection.tsx:159-175 | `filterTrades` returns an order-preserving subsequence of its input |
| CopiedTradesSection.FilterTradesExact | src/components/subscriber/CopiedTradesSection.tsx:160-173 | a trade is kept iff it passes the trade-account, signal-account and search tests, so a trade passing all three is never dropped |
| CopiedTradesSection.NoRestrictionKeepsAll | src/components/subscriber/CopiedTradesSection.tsx:152-168 | with both selectors "All" and an empty search (the initial state), the input comes back unchanged |
| CopiedTradesSection.SelectorsRestrict | src/components/subscriber/CopiedTradesSection.tsx:161-166 | a selector other than "All" is the account of every kept trade |
| CopiedTradesSection.SearchRestricts | src/components/subscriber/CopiedTradesSection.tsx:167-171 | with a non-empty search, every kept trade contains the term, ignoring case, in its symbol, signal account or trade account |
| CopiedTradesSection.NarrowingShrinks | src/components/subscriber/CopiedTradesSection.tsx:161-163 | narrowing the trade-account selector from "All" to one account only removes trades |
| TradesSection.Accounts | src/components/provider/TradesSection.tsx:144 | the listed accounts are the given ones when there are any, else the built-in defaults; never empty |
| TradesSection.InitialSelection | src/components/provider/TradesSection.tsx:55-57 | the initial selection is the first given account's id, or "" when none is given |
| TradesSection.FindIndex | src/components/provider/TradesSection.tsx:146 | `find` returns the first account with the id, or none |
| TradesSection.CurrentAccountChosen | src/components/provider/TradesSection.tsx:145-146 | the shown account is listed; it has the selected id iff some listed account does; it falls back to the first listed account |
| TradesSection.InitialShowsFirstAccount | src/components/provider/TradesSection.tsx:55-57 | at first the panel shows the first listed account |
| TradesSection.TablesExact | src/components/provider/TradesSection.tsx:148-151 | the open and closed tables keep the account's order and hold exactly its open, resp. closed, trades |
| TradesSection.TablesPartition | src/components/provider/TradesSection.tsx:148-151 | since status is Open or Closed, the two tables together hold every trade of the account exactly once |
| TradesSection.FirstDefaultTables | src/components/provider/TradesSection.tsx:61-111 | the first built-in account's open table is its first two trades and its history table the last two |
| TradesSection.DefaultPanel | src/components/provider/TradesSection.tsx:55-151 | with no accounts given, the panel shows "Aggressive Scalper" with two open and two closed trades |
| Sidebar.Menu | src/components/dashboard/Sidebar.tsx:187-226 | the sidebar is the role's entries followed by the three common ones, each rendered by `Render`, then Logout, which is never highlighted |
| Sidebar.Render | src/components/dashboard/Sidebar.tsx:187-196 | each rendered entry keeps its label and link, and is highlighted iff `isActive` holds of its link |
| Sidebar.DashboardRule | src/components/dashboard/Sidebar.tsx:93-98 | `isActive("/dashboard")` holds iff the path is "/dashboard", "/dashboard/provider" or "/dashboard/subscriber"; this is narrower than the prefix rule |
| Sidebar.PrefixRule | src/components/dashboard/Sidebar.tsx:100 | any other link is active on its own path and on every path below it |
| Sidebar.RoleSelectsItems | src/components/dashboard/Sidebar.tsx:160-161 | role "provider" selects the provider entries; any other role selects the subscriber entries |
| Sidebar.OwnPageActive | src/components/dashboard/Sidebar.tsx:92-101 | every entry but Logout is highlighted on its own page; Logout never is |
| Sidebar.ProviderTradesPage | src/components/dashboard/Sidebar.tsx:92-129 | on the provider's trades page exactly two entries are highlighted: "Dashboard" and "Trades" |
| Sidebar.NoCrossRoleHighlight | src/components/dashboard/Sidebar.tsx:100-152 | on a provider page no subscriber entry is highlighted, and the reverse |
| SubscriptionsSection.TrialName | src/components/subscriber/SubscriptionsSection.tsx:58 | the three trial statuses have three distinct string values |
| SubscriptionsSection.FilteredOrdered | src/components/subscriber/SubscriptionsSection.tsx:118-121 | every tab lists an order-preserving subsequence; tab "all" lists the input unchanged |
| SubscriptionsSection.FilteredExact | src/components/subscriber/SubscriptionsSection.tsx:121 | any other tab lists exactly the subscriptions whose `trialStatus` equals the tab |
| SubscriptionsSection.NoTrialOnlyUnderAll | src/components/subscriber/SubscriptionsSection.tsx:118-121 | of the three tabs, a subscription without a trial is listed only under "all" |
| SubscriptionsSection.TrialTabsDisjoint | src/components/subscriber/SubscriptionsSection.tsx:118-121 | the two trial tabs never list the same subscription |
| SubscriptionsSection.TrialBadgeMatchesTab | src/components/subscriber/SubscriptionsSection.tsx:228-249 | a card has a trial badge iff it is listed under a trial tab, and the badge reads as that tab's caption |
| SubscriptionsSection.StatusBadge | src/components/subscriber/SubscriptionsSection.tsx:251-271 | the status badge is "Active" iff the subscription is active, else "Inactive" |
| SubscriptionsSection.DefaultTabs | src/components/subscriber/SubscriptionsSection.tsx:73-121 | with the default list, "all" shows three cards, "active" the first and third, and "expired" the second |

## Left out

- HTTP plumbing is not modelled: `Deno.serve`, CORS preflight, JSON parsing, the
  response envelopes and the creation of the client from environment variables. Each
  handler's inputs are parameters and its outcome is a `Result`.
- The Supabase query builder is not modelled. Its queries are in-memory table
  operations. A query returns rows in table order, and a store failure is the `fault`
  parameter, counted per invocation.
- Database-generated ids are not modelled. A copied trade's id is drawn from a counter
  in `Database`.
- Time stamps are parameters. `update_performance_stats` computes
  `new Date().toISOString()` per row; the model uses one time for the whole batch.
- The upsert's conflict key is not visible in the source. The model assumes the write
  replaces the row stored under (account, all_time). `AggregationIdempotent` and
  `RowForEachAccount` depend on that assumption.
- Floating point is not modelled. Money, prices, lot sizes and ratios are `real`, so
  rounding in the lot-size and profit products is left out.
- Lower-casing covers ASCII letters only. `toLowerCase` on other scripts is left out.
- CloseTrade.CloseTrade: requires that the source trade's lot size is not 0. The
  source divides by it without a check. Only the trade form's "lot size > 0" makes
  that safe, so a zero lot, where JavaScript would produce Infinity or NaN, is not
  modelled.
- CloseTrade.CloseTrade: the caller's `profit` is taken as a number. A missing profit,
  which the source would write as null and spread as NaN, is not modelled.
- The trades panel's prices, pips and times, the copied-trades table's prices and
  times, and the subscription cards' lot size, switches and dialogs are not modelled.
  They are display-only fields.
- Rendering and icons are not modelled, and neither are the provider avatar, the
  collapsed sidebar or React's state plumbing. The sidebar's highlights are modelled
  as data in `Sidebar.Menu`.
- ProvidersList.ProviderBrowser.SetSearchTermAsWritten: does not promise a valid page.
  As written, the search leaves the current page unchecked (see Findings).

## Findings

| source | as written | input that shows it | evidently intended | confidence | as-written member | corrected member |
|---|---|---|---|---|---|---|
| src/components/providers/ProvidersList.tsx:156 | typing a search term changes `searchTerm` but leaves `currentPage` as it was | six providers, only the first matching "x"; go to page 2, then search "x": one match, one page, page 2 is empty, and the pager is hidden, so there is no button back | a new search returns to page 1, so a search with matches shows them | medium, not executed | ProvidersList.ProviderBrowser.SetSearchTermAsWritten, ProvidersList.StalePageHidesMatches | ProvidersList.ProviderBrowser.SetSearchTerm, ProvidersList.ValidPageShowsMatches |

The only caller of the providers list in the application, src/pages/providers/index.tsx:105, passes no providers, so the list shows its five built-in providers (ProvidersList.tsx:42, five per page at ProvidersList.tsx:110) and never has a page 2. The stale page appears only for a caller that passes more than five providers.
