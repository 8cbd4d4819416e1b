# A verified model of the simulated futures exchange

This project models the core of a simulated crypto futures exchange. The
backend is written in Go over SQLite. Alongside it are a browser dashboard
(`web/app.js`) and an interactive API reference (`web/api-docs.js`). Strategies
place LIMIT orders through a Binance-style REST API. A collector streams
Binance aggTrades, and the matching engine fills every open order that a
market trade price crosses ("price-through" matching). Balances, positions,
trades and periodic PnL snapshots are kept in SQLite and read back for a
leaderboard.

The model is written in Dafny and is purely functional:

- **Database.** The database is one immutable record, `Models.Db`. Its tables
  without a natural key are sequences in insertion order, and `balances` is a
  map keyed by its primary key. The schema's CHECK and PRIMARY KEY constraints
  become the predicate `Models.Valid`.
- **Store methods.** Every store method is a pure transition on that record
  and returns a `Result`. A failing SQL statement is an explicit boolean or
  set input. The contracts state what changes and, as frame conditions, what
  does not.
- **Matching engine** (`Matching`). `shouldMatch`, `matchOrder`,
  `updatePosition`, `updateBalance` and the `OnTrade` loop run over that
  record. The engine's statements run without a transaction, so a failing
  statement stops a fill with the earlier statements committed. The model
  keeps this behaviour.
- **Pure backend pieces**: the collector's stream path, aggTrade filter,
  bounded queue and latest-trade map (`Collector`); the synthetic order book
  (`Orderbook`); the `createOrder`, `cancelOrder` and `getAccount` handlers
  (`Handlers`); the config table and its defaults (`Config`, `JsonStrings`).
- **Dashboard helpers** (`WebFormat`, `WebDashboard`, `WebSession`):
  formatting, risk derivation, search and ranking, and the chart projection.
  `WebSession` is an event model of the page's asynchronous select and
  refresh requests.
- **API-docs string builders** (`ApiDocs`): endpoint ids, the curl command,
  the "try it" URL and HTML escaping.

Modelling choices:

- Prices and amounts are reals.
- Timestamps are integers, and the clock is an input.
- `math/rand` draws are inputs in [0, 1).
- `strconv.ParseFloat`, `parseFloat` and `encodeURIComponent` are parameters,
  or a value carried with the text.
- Formatted numbers are represented by their value, precision and suffix, not
  by digit strings.

Generic helpers live in `Seqs` (filter, map, count, insertion sort,
limit, sum) and `Text` (lower-casing, substring search, first replacement,
join and split).

## Model

| member | source | states |
|---|---|---|
| Models.ParseSide | internal/db/db.go:39 | The orders.side CHECK admits exactly "BUY" and "SELL", and an admitted text maps back to itself |
| Models.ParseStatus | internal/db/db.go:45 | The orders.status CHECK admits exactly the four status names, and each maps back to itself |
| Models.EmptyDb | internal/db/db.go:35-104 | A freshly migrated database with distinct account keys satisfies every table constraint |
| OrderStore.Create | internal/store/order_store.go:16-28 | The insert succeeds iff the statement runs, the side is BUY or SELL and the type is LIMIT. On success it appends exactly one row whose id is the fresh counter value, with status NEW, executed quantity 0 and the draft's fields. Nothing else changes |
| OrderStore.CreateKeepsValid | internal/store/order_store.go:16-28 | A successful insert preserves every table constraint, including increasing unique ids |
| OrderStore.GetByAPIKey | internal/store/order_store.go:30-53 | Returns exactly the key's orders, as a permutation of the table's rows for that key, ordered by created_at descending |
| OrderStore.GetOpenBySymbol | internal/store/order_store.go:55-78 | Returns exactly the rows with that symbol and status NEW or PARTIALLY_FILLED |
| OrderStore.GetOpenBySymbolCounts | internal/store/order_store.go:55-78 | Each open row of the symbol is returned exactly as often as the table holds it, and no other row is returned |
| OrderStore.SetStatus | internal/store/order_store.go:80-84 | Rows with the id get the new status and executed quantity and nothing else; all other rows are unchanged |
| OrderStore.UpdateStatus | internal/store/order_store.go:80-84 | Fails only when the statement fails; otherwise only the matching rows' status and executed quantity change, and an unknown id changes nothing |
| OrderStore.Cancel | internal/store/order_store.go:86-89 | Only an open order with that id becomes CANCELLED. FILLED or CANCELLED orders, unknown ids and every other table stay unchanged, and none of these is an error |
| OrderStore.CancelIdempotent | internal/store/order_store.go:86-89 | Cancelling twice gives the same database as cancelling once |
| OrderStore.CancelCloses | internal/store/order_store.go:86-89 | After a cancel, no order with that id is open, and an already closed order is exactly as before |
| OrderStore.CreateTrade | internal/store/order_store.go:91-99 | Appends exactly one trade row with the next trade id and leaves orders and all other tables unchanged |
| PositionStore.Get | internal/store/position_store.go:16-32 | Returns none (nil, no error) iff no row has the (apiKey, symbol) pair; otherwise returns a row with that pair |
| PositionStore.GetUnique | internal/store/position_store.go:16-32 | Under the primary key, the row Get returns is the only row with that pair |
| PositionStore.GetByAPIKey | internal/store/position_store.go:34-55 | Returns exactly the positions whose key matches, each as often as the table holds it |
| PositionStore.Upsert | internal/store/position_store.go:57-73 | Overwrites the row with p's key in place or appends p. Rows with other keys are preserved, and the primary key stays unique |
| PositionStore.Save | internal/store/position_store.go:57-73 | The upsert touches only the positions table and keeps at most one position per pair |
| PositionStore.SaveThenGet | internal/store/position_store.go:57-73 | After Save(p), Get of p's pair returns p with all its fields |
| PositionStore.SaveFrame | internal/store/position_store.go:57-73 | Save for one pair leaves Get of every other pair unchanged |
| PositionStore.Delete | internal/store/position_store.go:75-78 | The remaining rows are exactly those without the deleted pair |
| PositionStore.DeleteThenGet | internal/store/position_store.go:75-78 | After Delete(k, s), Get(k, s) is none and every other pair reads as before |
| BalanceStore.Get | internal/store/balance_store.go:16-28 | Returns the stored row, or a zero balance carrying the key when there is no row (not an error); fails only when the statement fails |
| BalanceStore.Update | internal/store/balance_store.go:30-42 | The upsert writes b under its key, leaves every other key and every other table unchanged |
| BalanceStore.UpdateThenGet | internal/store/balance_store.go:30-42 | After Update(b), Get(b's key) returns b, and every other key reads as before |
| BalanceStore.UpdateIdempotent | internal/store/balance_store.go:30-42 | Writing the same balance twice equals writing it once |
| BalanceStore.UpdateKeepsValid | internal/store/balance_store.go:30-42 | The upsert keeps the table constraints |
| LeaderboardStore.Roi | internal/store/leaderboard_store.go:64-66 | ROI times the initial balance is 100 times the total PnL when the initial balance is positive, otherwise 0; it is positive iff the PnL is |
| LeaderboardStore.GetLeaderboard | internal/store/leaderboard_store.go:28-70 | Returns one grouped row per account, a permutation of the accounts' entries, ordered by total PnL descending |
| LeaderboardStore.LeaderboardOnePerKey | internal/store/leaderboard_store.go:28-70 | Each registered key appears exactly once and nothing else appears. Every entry carries the key's COALESCEd balance, trade count and ROI |
| LeaderboardStore.FindAccount | internal/store/leaderboard_store.go:87-112 | Finds the account with the key, or none iff no account has it |
| LeaderboardStore.GetStrategyStats | internal/store/leaderboard_store.go:87-123 | Returns nil (no error) iff the key is unregistered. Otherwise returns the account's row with COALESCEd available, frozen and PnL, the trade count, the same ROI rule, and zero win/loss/drawdown |
| LeaderboardStore.StatsAgreeWithLeaderboard | internal/store/leaderboard_store.go:28-123 | A registered key's stats agree with its leaderboard entry on every shared column |
| LeaderboardStore.CreateTradeCounts | internal/store/leaderboard_store.go:37-41 | Recording a trade raises its own key's trade count by one and no other key's |
| SnapshotStore.CreateSnapshot | internal/store/snapshot_store.go:27-34 | Appends exactly one snapshot with the given key and amounts, stamped with the clock, and changes nothing else |
| SnapshotStore.GetSnapshotsByAPIKey | internal/store/snapshot_store.go:37-64 | Returns only the key's snapshots, newest first, min(limit, count) of them, and all of them for a negative limit. No row is returned more often than the table holds it, and every snapshot of the key left out is no newer than every one returned |
| SnapshotStore.NewestFirst | internal/store/snapshot_store.go:37-64 | For a key with snapshots and a non-zero limit the result is non-empty. No snapshot of the key is newer than the first one returned, and every snapshot the limit leaves out is no newer than the last one returned, so the limit drops the oldest |
| SnapshotStore.GetLatestSnapshot | internal/store/snapshot_store.go:67-87 | Returns none iff the key has no snapshot. Otherwise returns the newest one, which is the head of GetSnapshotsByAPIKey(key, 1) |
| SnapshotStore.GetSnapshotByTimeRange | internal/store/snapshot_store.go:90-116 | Returns exactly the key's snapshots with start <= time <= end, each as often as the table holds it, in ascending time order |
| SnapshotStore.CreateFrame | internal/store/snapshot_store.go:27-64 | Appending a snapshot for one key leaves every other key's history read unchanged |
| SnapshotManager.TakeSnapshot | internal/snapshot/manager.go:55-89 | A failing key query writes nothing. Otherwise each registered key whose balance read and insert succeed gets exactly one new snapshot with its current PnL, available and frozen amounts (all zero without a balance row). Failing keys are skipped without stopping the loop, and only the snapshot table grows |
| SnapshotManager.SnapshotAllRows | internal/snapshot/manager.go:74-86 | The per-key loop appends one row per successful key, in key order, with consecutive ids, and changes nothing else |
| SnapshotManager.TakenRows | internal/snapshot/manager.go:74-86 | The new rows cover every successful key once and only successful registered keys |
| SnapshotManager.TakenCover | internal/snapshot/manager.go:76-85 | The snapshotted keys are exactly the registered keys that fail neither the read nor the insert |
| SnapshotManager.TakeSnapshotNow | internal/snapshot/manager.go:102-109 | Succeeds iff the balance read and insert succeed, and then appends exactly one snapshot for the key with its balance amounts |
| SnapshotManager.TakeSnapshotNowThenLatest | internal/snapshot/manager.go:102-109 | The snapshot just taken becomes the key's latest snapshot, and other keys' histories are unchanged |
| SnapshotManager.GetSnapshots | internal/snapshot/manager.go:92-94 | Returns the key's snapshots newest first: exactly min(limit, count) of them, all of them for a negative limit, none more often than stored, and every one left out no newer than every one returned |
| SnapshotManager.GetSnapshotsHeadIsLatest | internal/snapshot/manager.go:92-94 | For a key with snapshots and a non-zero limit, the first snapshot returned is the key's latest |
| SnapshotManager.GetSnapshotsByTimeRange | internal/snapshot/manager.go:97-99 | Returns exactly the key's snapshots inside the inclusive range, each as often as stored, in ascending time order |
| Config.Get | internal/config/config.go:16-20 | Reads the stored value. A missing key is ErrNoRows and a failing statement is an error |
| Config.Set | internal/config/config.go:22-25 | Fails only when the statement fails. Otherwise the key holds the written value and every other key is unchanged |
| Config.SetThenGet | internal/config/config.go:16-25 | After Set(k, v), Get(k) returns v, and other keys read as before |
| Config.GetStringSlice | internal/config/config.go:27-35 | Propagates a read error. Fails as malformed iff the stored text does not decode, and otherwise returns the decoded list |
| Config.SetStringSlice | internal/config/config.go:37-43 | The key holds the list's JSON text, and other keys are unchanged |
| Config.StringSliceRoundTrip | internal/config/config.go:27-43 | SetStringSlice(k, xs) then GetStringSlice(k) returns xs |
| Config.DefaultSymbols | internal/config/config.go:48 | The default supported-symbol text decodes to ["BTCUSDT", "ETHUSDT"] |
| Config.InitKeysFrame | internal/config/config.go:59-66 | The defaults loop only writes default values for keys it could not read. It returns nil iff none of those writes fails, and then every such key holds its default |
| Config.InitDefaultsSpec | internal/config/config.go:46-68 | InitDefaults never overwrites a readable key and never touches a non-default key. It succeeds iff no needed write fails, and then every default key is present |
| Config.InitDefaultsIdempotent | internal/config/config.go:46-68 | Without failures, a second InitDefaults (in any visit order) changes nothing and succeeds |
| JsonStrings.DecodeEncode | internal/config/config.go:33-38 | Decoding the marshalled JSON text of a string list gives the list back |
| JsonStrings.Decode | internal/config/config.go:32-34 | "null" and "[]" both decode to the empty list |
| Collector.New | internal/collector/collector.go:39-48 | A new collector has an empty queue, no handlers and no latest trades |
| Collector.StreamUrlSegments | internal/collector/collector.go:69-79 | The URL is wsURL, one "/", then one lower-case "symbol@aggTrade" segment per symbol in order. Splitting on "/" returns exactly those segments, so there is no leading, trailing or doubled separator |
| Collector.OnMessage | internal/collector/collector.go:116-128 | Undecodable and non-aggTrade frames change nothing. An aggTrade is appended when the queue has room and dropped without blocking when it holds 1000 |
| Collector.Accepted | internal/collector/collector.go:116-122 | The read loop keeps only aggTrade frames, never more trades than frames read |
| Collector.ReadAllQueue | internal/collector/collector.go:100-131 | After any run of frames, the queue is the old contents followed by the accepted trades, cut at capacity 1000, so the earliest trades are kept |
| Collector.Dispatch | internal/collector/collector.go:133-148 | Takes the oldest trade, makes it its symbol's latest trade, leaves other symbols' entries unchanged, and starts every handler on it in order |
| Collector.LastOf | internal/collector/collector.go:134-137 | Finds a queued trade of the symbol, or none iff the queue holds none of it |
| Collector.DispatchAllLatest | internal/collector/collector.go:133-148 | Once the queue drains, each symbol's latest trade is its last queued trade. A symbol with no queued trade keeps its old entry or stays absent |
| Collector.GetLatestTrades | internal/collector/collector.go:51-61 | The copy has the same symbols and the same trade under each symbol |
| Collector.AddHandler | internal/collector/collector.go:63-67 | Appends exactly one handler after the existing ones, in order, and changes nothing else |
| Collector.AddHandlerThenDispatch | internal/collector/collector.go:63-67 | A handler added before dispatch is started on the next trade, after all earlier handlers |
| Collector.ReceiveThenLatest | internal/collector/collector.go:116-148 | An accepted aggTrade, once dispatched, is what GetLatestTrades reports for its symbol |
| Handlers.ParseFloatOr0 | internal/api/handlers.go:70-71 | An unparseable quantity or price reads as 0 rather than an error |
| Handlers.EffectiveLeverage | internal/api/handlers.go:72-75 | Leverage 0 becomes 10; any other leverage is kept |
| Handlers.CreateOrder | internal/api/handlers.go:44-95 | A malformed body, or one whose symbol, side, type, quantity or price is missing or empty, gives -1100; a non-LIMIT type gives -1106, both with no order created. A failing insert gives -1000/500 and writes nothing. Success happens iff all checks pass (a non-empty symbol, quantity and price, side BUY or SELL, type LIMIT, and a working insert), and then the echoed order is NEW with the counter's id and the request's fields |
| Handlers.CreateOrderStored | internal/api/handlers.go:77-94 | The echoed order is the row now stored under the caller's key, and the caller's order query lists it |
| Handlers.ParseIntOr0 | internal/api/handlers.go:98 | An unparseable order id reads as 0 |
| Handlers.CancelOrder | internal/api/handlers.go:97-109 | When the store's cancel succeeds, the reply is CANCELLED with the requested id; a failing store gives -1000/500 |
| Handlers.CancelClosedOrderReply | internal/api/handlers.go:97-109 | The reply says CANCELLED even for an order already FILLED or CANCELLED, which the store leaves as it was |
| Handlers.GetAccount | internal/api/handlers.go:12-42 | A failing balance read gives -1000/500. Otherwise the reply has exactly one USDT balance with free = available and locked = frozen (zero without a row), and the key's positions, each as often as stored. Maker/taker commissions are 2/5, buyer/seller commissions 0, trading is allowed, withdrawing and depositing are not, and the account type is FUTURES |
| Handlers.UpdateThenAccount | internal/api/handlers.go:12-42 | After a balance write, the account view reports the written available and frozen amounts |
| Matching.ShouldMatchIff | internal/matching/engine.go:50-69 | An order matches iff it is open, has quantity left, and is a BUY whose limit is above the price or a SELL whose limit is below it; equality never matches |
| Matching.FilledOrder | internal/matching/engine.go:99-103 | A filled order has status FILLED and executed quantity equal to its quantity, and nothing else changes |
| Matching.FilledNeverMatches | internal/matching/engine.go:50-58 | A filled order never matches again, at any price |
| Matching.FillTrade | internal/matching/engine.go:71-91 | The trade is for the whole remaining quantity at the market price, with quoteQty = qty * price and fee = quoteQty * 0.0002 |
| Matching.OpenSide | internal/matching/engine.go:131-134 | A BUY opens LONG and a SELL opens SHORT |
| Matching.Margin | internal/matching/engine.go:143 | The margin times the leverage equals qty * price |
| Matching.FreshPosition | internal/matching/engine.go:131-144 | The new position has the order's key, symbol and leverage, entry = price, size = qty, the matching side and the margin rule |
| Matching.UpdatePosition | internal/matching/engine.go:120-151 | With no position or an opposite one, a fresh position is saved and reads back. A same-side fill leaves the database unchanged. A failing read or save is reported and only positions can change |
| Matching.UpdatePositionFrame | internal/matching/engine.go:120-151 | Every other (key, symbol) pair's position is unchanged |
| Matching.UpdateBalance | internal/matching/engine.go:153-164 | Available and total PnL drop by exactly the fee and frozen is unchanged. Other keys and other tables are unchanged, and failing steps are reported |
| Matching.MatchOrder | internal/matching/engine.go:71-118 | A failing trade insert changes nothing. Otherwise exactly one full-quantity trade is appended, and then the order is marked FILLED. Positions and balances change only after that, and each step stops at the first failing statement |
| Matching.MatchAll | internal/matching/engine.go:40-44 | The loop keeps the number of order rows, changes only their status and executed quantity, and adds at most one trade per fetched order |
| Matching.OnTrade | internal/matching/engine.go:30-45 | A failing open-order query changes nothing, and accounts and snapshots are never touched |
| Matching.MatchedIds | internal/matching/engine.go:40-44 | The ids filled by the loop are exactly the fetched orders the price crosses |
| Matching.MatchAllOrders | internal/matching/engine.go:40-44 | Without failures, the loop fills exactly the rows whose id belongs to a crossed fetched order and appends one trade per crossed order |
| Matching.OnTradeFills | internal/matching/engine.go:30-45 | Without failures, every open order of the symbol that the price crosses becomes FILLED and every other order is unchanged; one trade is recorded per filled order |
| Matching.OnTradeIdempotent | internal/matching/engine.go:30-45 | Replaying the same market trade fills nothing more |
| Matching.UnparseablePriceFillsBuys | internal/matching/engine.go:30-45 | As written, a trade whose price does not parse fills every open BUY with a positive limit, at price 0 and fee 0 |
| Matching.OnTradeChecked | internal/matching/engine.go:30-45 | The corrected handler drops a trade whose price does not parse and otherwise behaves as OnTrade |
| Matching.CheckedFillsOnlyCrossed | internal/matching/engine.go:30-69 | With the check, any order that changes saw a parsed price below its BUY limit or above its SELL limit |
| Orderbook.NewOrderbook | internal/api/orderbook.go:31-38 | The initial prices are BTCUSDT at 67000 and ETHUSDT at 3500, and nothing else |
| Orderbook.BasePrice | internal/api/orderbook.go:52-55 | A symbol's recorded price, or 67000 for an unknown symbol |
| Orderbook.UpdatePrice | internal/api/orderbook.go:41-45 | Records the price for the symbol and leaves other symbols unchanged |
| Orderbook.UpdateThenBase | internal/api/orderbook.go:41-55 | After UpdatePrice(s, p), snapshots of s are drawn around p and other symbols keep their base |
| Orderbook.Round | internal/api/orderbook.go:104 | math.Round lands within one half of its argument, and a half rounds away from zero: up for a positive value, down for a negative one |
| Orderbook.RoundTo | internal/api/orderbook.go:102-105 | Rounding to n places moves a value by at most half a unit in the last place |
| Orderbook.FormatPrice | internal/api/orderbook.go:91-96 | Prices >= 1000 get 2 decimals and others get 4, each within half a unit of the price |
| Orderbook.FormatQuantity | internal/api/orderbook.go:98-100 | Quantities always get 4 decimals, within half a unit |
| Orderbook.GetSnapshot | internal/api/orderbook.go:48-89 | Exactly 10 bids and 10 asks. Each level uses its two draws in order, around the symbol's base price; the update id is the clock |
| Orderbook.OffsetBounds | internal/api/orderbook.go:62 | For a positive base, a level's offset is positive and below 0.15% of the base |
| Orderbook.QuantityBounds | internal/api/orderbook.go:64 | A level quantity lies in [0.1, 2.1) before formatting and in [0.1, 2.1] after |
| Orderbook.SnapshotSides | internal/api/orderbook.go:59-81 | For a base above 1, every formatted bid is below the base, every formatted ask is above it, and every quantity is in [0.1, 2.1] |
| Orderbook.BidBelow | internal/api/orderbook.go:62-66 | A formatted bid stays below a base above 1 |
| Orderbook.AskAbove | internal/api/orderbook.go:74-78 | A formatted ask stays above a base above 1 |
| Orderbook.SmallBaseBidMeetsBase | internal/api/orderbook.go:62-66 | Around a base of 0.5, rounding to 4 decimals can print the first bid at the base itself |
| WebFormat.ParseFloat | web/app.js:11-12 | A number parses as itself, a text as its parse result, and undefined or null as NaN |
| WebFormat.OrZero | web/app.js:228-232 | `parseFloat(x) OR 0`: the parsed value, or 0 for NaN |
| WebFormat.FormatNumber | web/app.js:9-20 | '-' iff the input is undefined, null, '' or not numeric. Otherwise 'M' iff the magnitude is >= 1e6, 'K' iff it is in [1e3, 1e6), and 'decimals' places below that. The shown value times its suffix factor is the number |
| WebFormat.FormatPrice | web/app.js:22-27 | 2 decimals iff p >= 1000, 4 iff 1 <= p < 1000, and 6 otherwise; NaN prints as NaN |
| WebFormat.FormatPriceMonotone | web/app.js:22-27 | A higher price never gets more decimals |
| WebFormat.FormatTime | web/app.js:29-40 | '-' iff the input is falsy. Otherwise the first tier that fits applies: under a minute 'just now', then whole minutes, then whole hours, then the absolute date |
| WebFormat.RoiColor | web/app.js:42-45 | Positive iff the ROI is NaN or >= 0 |
| WebDashboard.MarginUsage | web/app.js:234 | Usage times the initial balance is 100 times frozen when the initial balance is positive, otherwise 0 |
| WebDashboard.RiskOf | web/app.js:236-238 | High iff usage > 50, medium iff 20 < usage <= 50, low iff usage <= 20 |
| WebDashboard.RiskMonotone | web/app.js:236-238 | More margin usage never lowers the risk tier |
| WebDashboard.DetailMetrics | web/app.js:228-266 | Each figure is parseFloat-or-0 of its field, equity = available + frozen, usage and risk follow the rules, and the bar width is min(usage, 100) |
| WebDashboard.HighRiskIffHalfFrozen | web/app.js:234-237 | With a positive initial balance, the risk is high iff more than half of the initial balance is frozen |
| WebDashboard.SearchTerm | web/app.js:69 | The search term contains no ASCII upper-case letter |
| WebDashboard.FilterRows | web/app.js:71-77 | An empty term keeps every row. Otherwise a row is kept iff its name or description, with ASCII letters lower-cased, contains the term, and each kept row appears exactly as often as in the data |
| WebDashboard.FilterRowsSnoc | web/app.js:71-77 | The filter keeps leaderboard order: one more row at the end of the data adds that row at the end of the result iff the term is empty or the row matches |
| WebDashboard.NarrowingSearch | web/app.js:71-77 | Every row kept for a term is also kept for any term it contains |
| WebDashboard.RankRows | web/app.js:79-86 | The empty state shows iff nothing is left. Otherwise the rank is the filtered index plus one, and a row is top-3 iff its rank is at most 3 |
| WebDashboard.Top3Count | web/app.js:84-86 | Exactly min(n, 3) lines are styled top-3 |
| WebDashboard.HeaderStats | web/app.js:61-65 | The strategy count is the number of rows, and the total is the formatted sum of trade counts |
| WebDashboard.TotalTradesAppend | web/app.js:63 | One more row adds its own trade count, or nothing when the count is missing |
| WebDashboard.MinOf | web/app.js:475 | The minimum is one of the values and no value is below it |
| WebDashboard.MaxOf | web/app.js:476 | The maximum is one of the values and no value is above it |
| WebDashboard.Span | web/app.js:477 | The range is always positive: max - min when the values differ, 1 when they do not |
| WebDashboard.Project | web/app.js:469-489 | Nothing is drawn iff there are no snapshots; otherwise there is one point per snapshot |
| WebDashboard.ChartValuesOrder | web/app.js:473-474 | Values are read from a permutation of the snapshots sorted by time ascending |
| WebDashboard.ChartVertical | web/app.js:475-489 | Every y lies in [pad, h - pad]. The minimum sits on the bottom line and, when values vary, the maximum on the top line. The trend is up iff last >= first |
| WebDashboard.YInside | web/app.js:485 | One value's y stays inside the padded drawing |
| WebDashboard.ChartHorizontal | web/app.js:483-484 | Every x lies in [pad, w - pad], and x strictly increases when the drawing is wider than its padding |
| WebDashboard.XIncreasing | web/app.js:484 | A later index gets a strictly larger x |
| WebDashboard.XInside | web/app.js:484 | Each x lies between the two paddings |
| WebSession.SafeArray | web/app.js:155-158 | An array payload is kept and anything else becomes [] |
| WebSession.Find | web/app.js:123 | Finds a row with the key, or none iff there is no such row |
| WebSession.LoadLeaderboard | web/app.js:48-59 | A failed load leaves the data unchanged; a successful one replaces it |
| WebSession.SelectStart | web/app.js:122-129 | The selection becomes the row with the key. With no such row the rest of the page is untouched; otherwise the spinner shows and the fetch starts |
| WebSession.RefreshGuard | web/app.js:173 | The refresh proceeds iff the current selection has the key |
| WebSession.OnTick | web/app.js:163-173 | A tick starts a refresh iff the timer's key passes the guard, and changes nothing otherwise |
| WebSession.SelectFinish | web/app.js:131-169 | As written, a loaded response shows its own key and arms the timer for it, and a failure shows "load failed", whatever is selected by then |
| WebSession.RefreshFinish | web/app.js:183-197 | A successful refresh overwrites only the dynamic sections with its key's data; a failure changes nothing on screen |
| WebSession.StaleRefreshResponse | web/app.js:172-198 | Select A, let A load and a tick start A's refresh, then select B and let B load. When A's refresh returns, the panel shows B's header with A's sections, so the page is inconsistent |
| WebSession.StaleSelectResponse | web/app.js:122-198 | Select A then B, and let B's details arrive before A's. The panel then shows A while B is selected, the timer stays armed for A, and every tick is refused by the guard |
| WebSession.SelectFinishChecked | web/app.js:122-173 | The corrected handler drops a response whose key is no longer selected, and otherwise behaves as written |
| WebSession.RefreshFinishChecked | web/app.js:172-198 | The same check repeated after the refresh's await |
| WebSession.StepCheckedConsistent | web/app.js:122-198 | With the checks, every event keeps the panel and the timer consistent with the selection |
| WebSession.RunCheckedConsistent | web/app.js:122-198 | Every run of events with the checks keeps that consistency |
| WebSession.InitialRunsConsistent | web/app.js:122-198 | Starting from the initial page, every checked run stays consistent |
| ApiDocs.Slug | web/api-docs.js:374 | Letters and digits are kept in place and everything else becomes '_'. The length is preserved and the result is in [A-Za-z0-9_] |
| ApiDocs.EndpointId | web/api-docs.js:211 | The id is the method, '_', then the slug of the path; its length is the sum, and it is in [A-Za-z0-9_] when the method is |
| ApiDocs.EndpointIdMethod | web/api-docs.js:374 | For a method without '_', the first '_' of the id ends the method, so the method can be read back |
| ApiDocs.QueryString | web/api-docs.js:167 | Without any non-empty value the query string is empty |
| ApiDocs.QueryStringSplits | web/api-docs.js:166-169 | When names and encoded values contain no '&', splitting on '&' gives exactly the name=value pairs of the parameters with a value, in declaration order |
| ApiDocs.GenerateCurl | web/api-docs.js:153-178 | The URL gets '?query' iff the query is non-empty. The API-key header appears iff the key is non-empty. A POST with a body ends with the JSON content-type and data lines only when there is no query, because a query rebuilds the command without the body |
| ApiDocs.Substitute | web/api-docs.js:381-386 | Without any non-empty value the URL is unchanged |
| ApiDocs.SubstituteSnoc | web/api-docs.js:381-386 | Each valued parameter, in declaration order, replaces the first placeholder of its name in the URL left by the parameters before it; a parameter without a value changes nothing |
| ApiDocs.SubstituteSkipsEmpty | web/api-docs.js:381-386 | Parameters without a value take no part in the substitution |
| ApiDocs.RequestUrl | web/api-docs.js:378-401 | Without a parameter list the URL is base + path. Otherwise path parameters are substituted, and a GET with a non-empty query gets '?query' appended |
| ApiDocs.SinglePathParam | web/api-docs.js:378-401 | A GET's single valued parameter replaces the first occurrence of its placeholder and is also sent in the query string |
| ApiDocs.ReplaceAllAppend | web/api-docs.js:184-186 | A global replacement distributes over concatenation |
| ApiDocs.EscapeIsOnePass | web/api-docs.js:183-186 | Because '&' is escaped first, the three chained replacements equal one per-character escape |
| ApiDocs.UnescapeEscape | web/api-docs.js:183-186 | Escaping loses nothing: reading the entities back yields the original text |
| ApiDocs.WrongOrderDoubleEscapes | web/api-docs.js:183-186 | Escaping '<' before '&' would turn '<' into "&amp;lt;", while the source's order gives "&lt;" |
| ApiDocs.HighlightEscaped | web/api-docs.js:180-186 | A falsy input gives ''. Otherwise the text is escaped character by character and reads back to the input |
| Text.ToLower | web/app.js:69 | The lower-cased text has the same length and maps each character, and no ASCII upper-case letter remains |
| Text.Includes | web/app.js:74-75 | `includes` holds iff the term occurs at some position |
| Text.SplitJoin | web/api-docs.js:167 | Joining on a separator that no part contains and then splitting gives the parts back |

## Left out

- Read-query SQL errors in callers that ignore them. Examples are `getAccount`'s discarded positions error and row-scan errors inside the read loops. Every read query is modelled as succeeding except where control flow depends on its error.
- `DeleteOldSnapshots` (internal/store/snapshot_store.go:119-126). It builds its offset with `string(rune(days*24))`, which gives one Unicode character rather than digits, so it implements no meaningful retention rule.
- The snapshot ticker (`Start`/`Stop` of internal/snapshot/manager.go): timer and channel plumbing.
- The websocket dial, `reconnect`, the goroutines and the mutexes of the collector. Frames arrive already decoded (`json.Unmarshal` is not modelled), and the model interleaves reads and dispatches only as events. `dispatchLoop` starts each handler in its own goroutine (internal/collector/collector.go:145), and `OnTrade` takes no lock and no transaction, so two trades of one symbol can be handled at once. Each `Matching.OnTrade` call is modelled as atomic: two overlapping calls can both fetch the same open order and fill it twice, with two trade rows and the fee charged twice, which Matching.OnTradeFills and Matching.OnTradeIdempotent, being about one call running alone, do not cover.
- Matching.Margin: with leverage 0, Go divides by zero and stores ±Inf or NaN. The model gives 0 there, and its contract says nothing about that case. The handler's default of 10 keeps leverage 0 out of stored orders.
- JsonStrings.Decode: covers the compact `json.Marshal` form and the `\"` and `\\` escapes only. Go's `Unmarshal` also accepts whitespace, the `\/`, `\b`, `\f`, `\n`, `\r`, `\t` and `\u` escapes, and `null` elements (`[null]` decodes to `[""]`), all of which the model rejects as malformed. Go rejects raw control characters inside a string, which the model accepts. The encoder (JsonStrings.Encode) does not escape `<`, `>`, `&` or control characters as Go does. A nil slice marshals to "null" in Go, and the model's encoder always writes a list.
- Handlers.CreateOrder: `strconv.ParseFloat` is a parameter. Malformed JSON is the single `none` input; a required field that is missing decodes to the empty text, which the model rejects like an empty one. Gin's other binding failures (a leverage that is not an integer, say) fold into `none`. The echoed order's zero `CreatedAt` and `ID` fields beyond the id are not modelled.
- LeaderboardStore.GetLeaderboard: entries with equal PnL come in an order that SQLite does not fix. The model proves the order is non-increasing and the entries a permutation, and does not claim a specific tie order. `winCount`, `lossCount` and `maxDrawdown` are always zero in the source and are modelled so.
- SQLite's order among snapshots with equal timestamps, for the same reason.
- Seqs.Sort: no ensures states stability, so the chart's order among snapshots with equal timestamps (WebDashboard.ChartValuesOrder) is not promised, although `Array.prototype.sort` is stable.
- The digit strings of `toFixed` and `Sprintf`, and locale date text. Formatters are modelled as tier and precision selection plus the value shown.
- Orderbook.FormatPrice: the model uses exact real rounding. Go's binary floating point may round a halfway value differently.
- JavaScript `Infinity` and the floating-point behaviour of `parseFloat`, which are not represented.
- Handlers.CreateOrder, Handlers.ParseFloatOr0, Matching.OnTrade and Matching.PriceOrZero: a parse yields a real or nothing, so Go's non-finite floats are not represented. `strconv.ParseFloat` accepts "NaN", "Inf" and "Infinity" and returns ±Inf on overflow ("1e400"), and both callers discard its error (internal/api/handlers.go:70-71, internal/matching/engine.go:32). In Go an order priced "Inf" is a BUY that every later trade of its symbol fills, and a quantity of "1e400" makes quoteQty, the fee and the balance infinite. SQLite stores a NaN price as NULL, which `price DECIMAL NOT NULL` (internal/db/db.go:41) rejects with -1000; the model reaches that reply only through the `fault` input.
- `encodeURIComponent` and `JSON.stringify`, which are abstract functions or given texts.
- DOM rendering, `innerHTML` templates, `fetch`/`Promise.all`, `setInterval`, `localStorage` and the clipboard in both web files.
- `syntaxHighlight`'s span-markup regexes (web/api-docs.js:187-191), which run after the escaping and are not modelled.
- Matching.ShouldMatchIff: the source's fallback `false` for a side other than BUY and SELL has no counterpart. The schema's CHECK admits only those two, so `Side` has exactly two values.
- Orderbook.SnapshotSides: the bid-below and ask-above property is proved for a base above 1, not for every positive base. Orderbook.SmallBaseBidMeetsBase shows that 4-decimal rounding can make a bid equal a base below 1.
- Text.ToLower: folds ASCII letters only. JavaScript's `toLowerCase` folds every Unicode letter ("É" becomes "é"), so WebDashboard.SearchTerm and WebDashboard.FilterRows differ from the page for names, descriptions or terms with non-ASCII capitals.
- ApiDocs.RequestUrl and ApiDocs.SinglePathParam: a value is inserted literally. `String.prototype.replace` with a string pattern (web/api-docs.js:384) expands `$&`, `$$`, `` $` `` and `$'` in the replacement, so a value holding `$` can produce a different URL in the page.
- WebSession: the chart, order-book and positions sections are collapsed into the single `sections` field, and the panel records which key's data it shows.
- The remaining handlers in internal/api/handlers.go:111-159. `getOrder` answers 501, `getMyTrades` answers an empty list, `getExchangeInfo` answers a constant list and `getDepth` answers an empty book. `getOpenOrders` returns `OrderStore.GetByAPIKey` unfiltered, including closed orders, and that store call is modelled.
- test_api.py, server.go, middleware.go, websocket.go, main.go and cmd/admin/main.go are process wiring or network clients and are not part of this model.

## Findings

| source | as written | input that shows it | evidently intended | confidence | as-written member | corrected member |
|---|---|---|---|---|---|---|
| internal/matching/engine.go:31-44 | The error of `strconv.ParseFloat(trade.Price)` is discarded, so an unparseable price is matched as 0 | An open BUY with limit 67000 and an aggTrade whose price field is not a number: the BUY is filled at price 0 with fee 0 | A trade whose price does not parse is dropped | not executed | Matching.UnparseablePriceFillsBuys | Matching.OnTradeChecked, Matching.CheckedFillsOnlyCrossed |
| web/app.js:122-170 | `selectStrategy` applies its response after the `await` whatever is selected by then, unlike `refreshDetail`, which checks the selection on entry | Click A, click B, B's details arrive, then A's: the panel shows A while B is selected, and the timer is armed for A and refused by the guard on every tick | A late response for a strategy that is no longer selected is dropped | not executed | WebSession.StaleSelectResponse | WebSession.SelectFinishChecked, WebSession.RunCheckedConsistent |
| web/app.js:172-198 | `refreshDetail` checks the selection before its `await` but not after it | Click A, A loads, a tick starts A's refresh, click B, B loads, then A's refresh returns: the panel shows B's header with A's positions, trades, orders and chart | A refresh response for a strategy that is no longer selected is dropped | not executed | WebSession.StaleRefreshResponse | WebSession.RefreshFinishChecked, WebSession.RunCheckedConsistent |
