/** The price-through matching engine (internal/matching/engine.go). A
    market trade at price p fills every open order of its symbol that the
    price crosses: a BUY whose limit is above p, a SELL whose limit is below
    p. A fill is always for the whole remaining quantity, at the market
    price, with the maker fee. The engine's SQL statements run one by one
    without a transaction; the set `fails` names the statements that fail,
    and a failing statement ends the fill with the earlier ones committed. */
module Matching {
  import opened Common
  import opened Seqs
  import opened Models
  import OrderStore
  import PositionStore
  import BalanceStore

  /** The maker fee rate, fixed in the engine (the `trade_fee_maker` config
      key is not read). */
  const MakerFee: real := 0.0002

  /** The store calls a fill makes, in order. */
  datatype Step =
    | CreateTradeStep
    | UpdateStatusStep
    | PositionGetStep
    | PositionSaveStep
    | BalanceGetStep
    | BalanceUpdateStep

  /** `shouldMatch`. A closed order or one with nothing left to fill never
      matches; otherwise the trade price must cross the limit strictly. The
      schema admits no side but BUY and SELL, so the source's fallback
      `false` for another side has no counterpart here. */
  predicate ShouldMatch(o: Order, tradePrice: real)
  {
    if o.status == Filled || o.status == Cancelled then false
    else if o.Remaining() <= 0.0 then false
    else match o.side
      case Buy => tradePrice < o.price
      case Sell => tradePrice > o.price
  }

  /** `ShouldMatch` characterised without reference to its branches. */
  lemma ShouldMatchIff(o: Order, tradePrice: real)
    ensures ShouldMatch(o, tradePrice) <==>
      && IsOpen(o.status)
      && o.executedQty < o.quantity
      && (o.side == Buy ==> tradePrice < o.price)
      && (o.side == Sell ==> o.price < tradePrice)
    ensures tradePrice == o.price ==> !ShouldMatch(o, tradePrice)
  {
  }

  /** The order as `UpdateStatus(id, FILLED, quantity)` leaves it. */
  function FilledOrder(o: Order): (r: Order)
    ensures r.id == o.id && r.quantity == o.quantity && r.Remaining() == 0.0 && r.status == Filled
    ensures r.(status := o.status, executedQty := o.executedQty) == o
  {
    o.(status := Filled, executedQty := o.quantity)
  }

  /** A filled order can never match again, whatever the price. */
  lemma FilledNeverMatches(o: Order, tradePrice: real)
    ensures !ShouldMatch(FilledOrder(o), tradePrice)
  {
  }

  /** The trade row a fill of `o` at `price` records. */
  function FillTrade(o: Order, price: real): (t: OrderStore.TradeDraft)
    ensures t.orderId == o.id && t.apiKey == o.apiKey && t.symbol == o.symbol && t.side == o.side
    ensures t.price == price && t.quantity == o.quantity - o.executedQty
    ensures t.quoteQty == t.quantity * price && t.fee == t.quoteQty * 0.0002
  {
    var qty := o.Remaining();
    var quoteQty := qty * price;
    OrderStore.TradeDraft(o.id, o.apiKey, o.symbol, o.side, price, qty, quoteQty, quoteQty * MakerFee)
  }

  /** The position side a fill opens. */
  function OpenSide(s: Side): (r: PositionSide)
    ensures r == Long <==> s == Buy
  {
    match s
    case Buy => Long
    case Sell => Short
  }

  /** `qty * price / float64(leverage)`. */
  function Margin(qty: real, price: real, leverage: int): (r: real)
    ensures leverage != 0 ==> r * (leverage as real) == qty * price
  {
    if leverage == 0 then 0.0 else qty * price / (leverage as real)
  }

  /** The position a fill opens; unrealized PnL starts at zero. */
  function FreshPosition(o: Order, qty: real, price: real): (p: Position)
    ensures p.apiKey == o.apiKey && p.symbol == o.symbol
    ensures (p.side == Long <==> o.side == Buy) && (p.side == Short <==> o.side == Sell)
    ensures p.entryPrice == price && p.size == qty && p.leverage == o.leverage && p.unrealizedPnl == 0.0
    ensures o.leverage != 0 ==> p.margin * (o.leverage as real) == qty * price
  {
    Position(o.apiKey, o.symbol, OpenSide(o.side), price, qty, o.leverage, Margin(qty, price, o.leverage), 0.0)
  }

  /** A fill opens a fresh position when there is none, or when the existing
      one is on the other side (a LONG hit by a SELL, a SHORT by a BUY). */
  predicate Opens(cur: Option<Position>, side: Side)
  {
    cur.None? || (cur.value.side == Long && side == Sell) || (cur.value.side == Short && side == Buy)
  }

  /** `updatePosition`. A same-side fill leaves the position as it was. */
  function UpdatePosition(db: Db, o: Order, qty: real, price: real, fails: set<Step>): (r: Result<Db, Step>)
    ensures r == Err(PositionGetStep) <==> PositionGetStep in fails
    ensures r == Err(PositionSaveStep) <==>
      PositionGetStep !in fails && PositionSaveStep in fails && Opens(PositionStore.Get(db, o.apiKey, o.symbol), o.side)
    ensures r.Ok? ==> r.value.(positions := db.positions) == db
    ensures r.Ok? && !Opens(PositionStore.Get(db, o.apiKey, o.symbol), o.side) ==> r.value == db
    ensures r.Ok? && Opens(PositionStore.Get(db, o.apiKey, o.symbol), o.side) && PositionKeysUnique(db.positions) ==>
      && PositionStore.Get(r.value, o.apiKey, o.symbol) == Some(FreshPosition(o, qty, price))
      && PositionKeysUnique(r.value.positions)
  {
    if PositionGetStep in fails then Err(PositionGetStep)
    else if !Opens(PositionStore.Get(db, o.apiKey, o.symbol), o.side) then Ok(db)
    else
      var p := FreshPosition(o, qty, price);
      match PositionStore.Save(db, p, PositionSaveStep in fails)
      case Err(_) => Err(PositionSaveStep)
      case Ok(db') =>
        if PositionKeysUnique(db.positions) then
          PositionStore.SaveThenGet(db, p);
          Ok(db')
        else Ok(db')
  }

  /** `updatePosition` changes no other (key, symbol) pair's position. */
  lemma UpdatePositionFrame(db: Db, o: Order, qty: real, price: real, fails: set<Step>, apiKey: string, symbol: string)
    requires PositionKeysUnique(db.positions)
    requires UpdatePosition(db, o, qty, price, fails).Ok?
    requires (apiKey, symbol) != (o.apiKey, o.symbol)
    ensures PositionStore.Get(UpdatePosition(db, o, qty, price, fails).value, apiKey, symbol)
         == PositionStore.Get(db, apiKey, symbol)
  {
    if Opens(PositionStore.Get(db, o.apiKey, o.symbol), o.side) {
      PositionStore.SaveFrame(db, FreshPosition(o, qty, price), apiKey, symbol);
    }
  }

  /** `updateBalance`: the fee comes off both the available amount and the
      total PnL; the frozen amount is untouched. A key without a balance row
      starts from zero. */
  function UpdateBalance(db: Db, o: Order, fee: real, fails: set<Step>): (r: Result<Db, Step>)
    ensures r == Err(BalanceGetStep) <==> BalanceGetStep in fails
    ensures r == Err(BalanceUpdateStep) <==> BalanceGetStep !in fails && BalanceUpdateStep in fails
    ensures r.Ok? ==> r.value.(balances := db.balances) == db
    ensures r.Ok? && BalancesKeyed(db.balances) ==>
      var before := BalanceStore.Get(db, o.apiKey, false).value;
      var after := BalanceStore.Get(r.value, o.apiKey, false).value;
      && after.available == before.available - fee
      && after.totalPnl == before.totalPnl - fee
      && after.frozen == before.frozen
      && BalancesKeyed(r.value.balances)
      && (forall k :: k != o.apiKey ==> BalanceStore.Get(r.value, k, false) == BalanceStore.Get(db, k, false))
  {
    match BalanceStore.Get(db, o.apiKey, BalanceGetStep in fails)
    case Err(_) => Err(BalanceGetStep)
    case Ok(b) =>
      match BalanceStore.Update(db, b.(available := b.available - fee, totalPnl := b.totalPnl - fee), BalanceUpdateStep in fails)
      case Err(_) => Err(BalanceUpdateStep)
      case Ok(db') => Ok(db')
  }

  /** What a fill leaves behind: the database, and the statement that
      failed, if one did. */
  datatype Outcome = Outcome(db: Db, failed: Option<Step>)

  /** `matchOrder`: record the trade, mark the order FILLED with its whole
      quantity executed, then update the position and the balance, stopping
      at the first failing statement. */
  function MatchOrder(db: Db, o: Order, price: real, now: int, fails: set<Step>): (r: Outcome)
    // a failing trade insert leaves everything untouched
    ensures CreateTradeStep in fails ==> r == Outcome(db, Some(CreateTradeStep))
    // otherwise exactly one trade row is appended, for the whole remaining quantity
    ensures CreateTradeStep !in fails ==>
      r.db.trades == db.trades + [Trade(db.nextTradeId, o.id, o.apiKey, o.symbol, o.side, price,
                                        o.quantity - o.executedQty, (o.quantity - o.executedQty) * price,
                                        (o.quantity - o.executedQty) * price * MakerFee, now)]
    ensures CreateTradeStep !in fails ==> r.db.nextTradeId == db.nextTradeId + 1
    // the order row changes only when the status update runs
    ensures CreateTradeStep !in fails && UpdateStatusStep !in fails ==>
      r.db.orders == OrderStore.SetStatus(db.orders, o.id, Filled, o.quantity)
    ensures CreateTradeStep in fails || UpdateStatusStep in fails ==> r.db.orders == db.orders
    // positions and balances change only after the order is marked
    ensures r.failed.Some? && r.failed.value in {CreateTradeStep, UpdateStatusStep, PositionGetStep, PositionSaveStep} ==>
      r.db.positions == db.positions && r.db.balances == db.balances
    ensures r.failed.Some? && r.failed.value in {BalanceGetStep, BalanceUpdateStep} ==> r.db.balances == db.balances
    // nothing outside the four touched tables changes
    ensures r.db.accounts == db.accounts && r.db.snapshots == db.snapshots
    ensures r.db.nextOrderId == db.nextOrderId && r.db.nextSnapshotId == db.nextSnapshotId
    ensures fails == {} ==> r.failed == None
  {
    var t := FillTrade(o, price);
    match OrderStore.CreateTrade(db, t, now, CreateTradeStep in fails)
    case Err(_) => Outcome(db, Some(CreateTradeStep))
    case Ok(db1) =>
      assert t.quantity == o.quantity - o.executedQty;
      assert t.quoteQty == (o.quantity - o.executedQty) * price;
      assert t.fee == (o.quantity - o.executedQty) * price * MakerFee;
      assert db1.trades == db.trades + [Trade(db.nextTradeId, o.id, o.apiKey, o.symbol, o.side, price,
                                              o.quantity - o.executedQty, (o.quantity - o.executedQty) * price,
                                              (o.quantity - o.executedQty) * price * MakerFee, now)];
      match OrderStore.UpdateStatus(db1, o.id, Filled, o.quantity, UpdateStatusStep in fails)
      case Err(_) => Outcome(db1, Some(UpdateStatusStep))
      case Ok(db2) =>
        match UpdatePosition(db2, o, t.quantity, price, fails)
        case Err(s) => Outcome(db2, Some(s))
        case Ok(db3) =>
          match UpdateBalance(db3, o, t.fee, fails)
          case Err(s) => Outcome(db3, Some(s))
          case Ok(db4) => Outcome(db4, None)
  }

  /** The statements of order `id` that fail; none unless listed. */
  function FailsOf(fails: map<int, set<Step>>, id: int): set<Step>
  {
    if id in fails then fails[id] else {}
  }

  /** The loop of `OnTrade` over the fetched orders. Each iteration works on
      the row as it was fetched, not as the table holds it by then. */
  function MatchAll(db: Db, fetched: seq<Order>, price: real, now: int, fails: map<int, set<Step>>): (r: Db)
    ensures r.accounts == db.accounts && r.snapshots == db.snapshots
    ensures r.nextOrderId == db.nextOrderId && r.nextSnapshotId == db.nextSnapshotId
    ensures |r.orders| == |db.orders|
    ensures forall i :: 0 <= i < |db.orders| ==>
      r.orders[i].(status := db.orders[i].status, executedQty := db.orders[i].executedQty) == db.orders[i]
    ensures |r.trades| <= |db.trades| + |fetched|
    decreases |fetched|
  {
    if |fetched| == 0 then db
    else
      var o := fetched[0];
      var db1 := if ShouldMatch(o, price) then MatchOrder(db, o, price, now, FailsOf(fails, o.id)).db else db;
      MatchAll(db1, fetched[1..], price, now, fails)
  }

  /** `strconv.ParseFloat` with its error ignored: an unparseable price
      reads as 0. */
  function PriceOrZero(price: Option<real>): real
  {
    if price.Some? then price.value else 0.0
  }

  /** `OnTrade`: fetch the open orders of the trade's symbol (a failing
      query ends the call) and fill each one the price crosses. */
  function OnTrade(db: Db, symbol: string, price: Option<real>, now: int, queryFails: bool,
                   fails: map<int, set<Step>>): (r: Db)
    ensures queryFails ==> r == db
    ensures r.accounts == db.accounts && r.snapshots == db.snapshots
    ensures |r.orders| == |db.orders|
  {
    if queryFails then db
    else MatchAll(db, OrderStore.GetOpenBySymbol(db, symbol), PriceOrZero(price), now, fails)
  }

  /** The ids of the fetched orders the price crosses. */
  function MatchedIds(fetched: seq<Order>, price: real): (r: set<int>)
    ensures forall id :: id in r <==> exists j :: 0 <= j < |fetched| && fetched[j].id == id && ShouldMatch(fetched[j], price)
    decreases |fetched|
  {
    if |fetched| == 0 then {}
    else
      var rest := MatchedIds(fetched[1..], price);
      assert forall id :: id in rest <==> exists j :: 1 <= j < |fetched| && fetched[j].id == id && ShouldMatch(fetched[j], price) by {
        forall id | id in rest ensures exists j :: 1 <= j < |fetched| && fetched[j].id == id && ShouldMatch(fetched[j], price) {
          var j :| 0 <= j < |fetched[1..]| && fetched[1..][j].id == id && ShouldMatch(fetched[1..][j], price);
          assert fetched[j + 1] == fetched[1..][j];
        }
        forall id | exists j :: 1 <= j < |fetched| && fetched[j].id == id && ShouldMatch(fetched[j], price) ensures id in rest {
          var j :| 1 <= j < |fetched| && fetched[j].id == id && ShouldMatch(fetched[j], price);
          assert fetched[1..][j - 1] == fetched[j];
        }
      }
      (if ShouldMatch(fetched[0], price) then {fetched[0].id} else {}) + rest
  }

  /** Every table row sharing an id with a fetched order has its quantity. */
  predicate QuantityAgrees(orders: seq<Order>, fetched: seq<Order>)
  {
    forall i, j :: 0 <= i < |orders| && 0 <= j < |fetched| && orders[i].id == fetched[j].id ==>
      orders[i].quantity == fetched[j].quantity
  }

  /** Without failures the loop marks FILLED exactly the rows whose id
      belongs to a fetched order the price crosses, and appends one trade per
      such order. */
  lemma {:induction false} MatchAllOrders(db: Db, fetched: seq<Order>, price: real, now: int)
    requires QuantityAgrees(db.orders, fetched)
    ensures var r := MatchAll(db, fetched, price, now, map[]);
      && (forall i :: 0 <= i < |db.orders| ==>
            r.orders[i] == if db.orders[i].id in MatchedIds(fetched, price) then FilledOrder(db.orders[i]) else db.orders[i])
      && |r.trades| == |db.trades| + Count(fetched, Crosses(price))
    decreases |fetched|
  {
    if |fetched| > 0 {
      var o := fetched[0];
      var db1 := if ShouldMatch(o, price) then MatchOrder(db, o, price, now, FailsOf(map[], o.id)).db else db;
      MatchOneOrder(db, o, price, now);
      assert QuantityAgrees(db1.orders, fetched[1..]) by {
        forall i, j | 0 <= i < |db1.orders| && 0 <= j < |fetched[1..]| && db1.orders[i].id == fetched[1..][j].id
          ensures db1.orders[i].quantity == fetched[1..][j].quantity
        {
          assert fetched[1..][j] == fetched[j + 1];
        }
      }
      MatchAllOrders(db1, fetched[1..], price, now);
      var r := MatchAll(db, fetched, price, now, map[]);
      assert r == MatchAll(db1, fetched[1..], price, now, map[]);
      forall i | 0 <= i < |db.orders|
        ensures r.orders[i] == if db.orders[i].id in MatchedIds(fetched, price) then FilledOrder(db.orders[i]) else db.orders[i]
      {
        MatchedIdsCons(fetched, price, db.orders[i].id);
      }
      assert Count(fetched, Crosses(price))
          == (if ShouldMatch(o, price) then 1 else 0) + Count(fetched[1..], Crosses(price));
    }
  }

  /** One iteration of the loop without failures: the fetched order's row is
      filled if the price crosses it, and one trade is appended. */
  lemma MatchOneOrder(db: Db, o: Order, price: real, now: int)
    requires forall i :: 0 <= i < |db.orders| && db.orders[i].id == o.id ==> db.orders[i].quantity == o.quantity
    ensures var db1 := if ShouldMatch(o, price) then MatchOrder(db, o, price, now, FailsOf(map[], o.id)).db else db;
      && |db1.orders| == |db.orders|
      && (forall i :: 0 <= i < |db.orders| ==>
            db1.orders[i] == if ShouldMatch(o, price) && db.orders[i].id == o.id then FilledOrder(db.orders[i]) else db.orders[i])
      && |db1.trades| == |db.trades| + (if ShouldMatch(o, price) then 1 else 0)
  {
    assert FailsOf(map[], o.id) == {};
  }

  /** Membership in the matched ids, one fetched order at a time. */
  lemma MatchedIdsCons(fetched: seq<Order>, price: real, id: int)
    requires |fetched| > 0
    ensures id in MatchedIds(fetched, price) <==>
      (fetched[0].id == id && ShouldMatch(fetched[0], price)) || id in MatchedIds(fetched[1..], price)
  {
  }

  /** Order ids are unique under the AUTOINCREMENT invariant. */
  lemma IdsUnique(db: Db, i: int, k: int)
    requires OrderIdsFresh(db)
    requires 0 <= i < |db.orders| && 0 <= k < |db.orders| && db.orders[i].id == db.orders[k].id
    ensures i == k
  {
  }

  /** The rows a trade of `symbol` at `price` fills. */
  predicate Crossed(o: Order, symbol: string, price: real)
  {
    o.symbol == symbol && ShouldMatch(o, price)
  }

  function Crosses(price: real): Order -> bool
  {
    o => ShouldMatch(o, price)
  }

  function CrossesIn(symbol: string, price: real): Order -> bool
  {
    o => Crossed(o, symbol, price)
  }

  /** `OnTrade` without failures: every order of the symbol the price
      crosses becomes FILLED with its whole quantity executed, every other
      order is unchanged, and one trade is recorded per filled order. */
  lemma OnTradeFills(db: Db, symbol: string, price: Option<real>, now: int)
    requires OrderIdsFresh(db)
    ensures var r := OnTrade(db, symbol, price, now, false, map[]);
      && (forall i :: 0 <= i < |db.orders| ==>
            r.orders[i] == if Crossed(db.orders[i], symbol, PriceOrZero(price)) then FilledOrder(db.orders[i]) else db.orders[i])
      && |r.trades| == |db.trades| + Count(db.orders, CrossesIn(symbol, PriceOrZero(price)))
  {
    var px := PriceOrZero(price);
    var fetched := OrderStore.GetOpenBySymbol(db, symbol);
    FetchedAgree(db, symbol);
    MatchAllOrders(db, fetched, px, now);
    MatchedIffCrossed(db, symbol, px);
    CrossedCount(db, symbol, px);
  }

  lemma FetchedAgree(db: Db, symbol: string)
    requires OrderIdsFresh(db)
    ensures QuantityAgrees(db.orders, OrderStore.GetOpenBySymbol(db, symbol))
  {
    var fetched := OrderStore.GetOpenBySymbol(db, symbol);
    forall i, j | 0 <= i < |db.orders| && 0 <= j < |fetched| && db.orders[i].id == fetched[j].id
      ensures db.orders[i].quantity == fetched[j].quantity
    {
      var k :| 0 <= k < |db.orders| && db.orders[k] == fetched[j];
      IdsUnique(db, i, k);
    }
  }

  lemma MatchedIffCrossed(db: Db, symbol: string, px: real)
    requires OrderIdsFresh(db)
    ensures forall i :: 0 <= i < |db.orders| ==>
      (db.orders[i].id in MatchedIds(OrderStore.GetOpenBySymbol(db, symbol), px) <==> Crossed(db.orders[i], symbol, px))
  {
    var fetched := OrderStore.GetOpenBySymbol(db, symbol);
    forall i | 0 <= i < |db.orders|
      ensures db.orders[i].id in MatchedIds(fetched, px) <==> Crossed(db.orders[i], symbol, px)
    {
      if db.orders[i].id in MatchedIds(fetched, px) {
        var j :| 0 <= j < |fetched| && fetched[j].id == db.orders[i].id && ShouldMatch(fetched[j], px);
        var k :| 0 <= k < |db.orders| && db.orders[k] == fetched[j];
        IdsUnique(db, i, k);
      }
      if Crossed(db.orders[i], symbol, px) {
        assert db.orders[i] in fetched;
        var j :| 0 <= j < |fetched| && fetched[j] == db.orders[i];
      }
    }
  }

  lemma CrossedCount(db: Db, symbol: string, px: real)
    ensures Count(OrderStore.GetOpenBySymbol(db, symbol), Crosses(px)) == Count(db.orders, CrossesIn(symbol, px))
  {
    FilterFilter(db.orders, OrderStore.OpenIn(symbol), Crosses(px), CrossesIn(symbol, px));
  }

  /** When the price crosses none of the fetched orders, the loop changes
      nothing. */
  lemma {:induction false} MatchAllNone(db: Db, fetched: seq<Order>, price: real, now: int, fails: map<int, set<Step>>)
    requires forall j :: 0 <= j < |fetched| ==> !ShouldMatch(fetched[j], price)
    ensures MatchAll(db, fetched, price, now, fails) == db
    decreases |fetched|
  {
    if |fetched| > 0 {
      MatchAllNone(db, fetched[1..], price, now, fails);
    }
  }

  /** Replaying the same market trade fills nothing more: `OnTrade` without
      failures is idempotent. */
  lemma OnTradeIdempotent(db: Db, symbol: string, price: Option<real>, now: int)
    requires OrderIdsFresh(db)
    ensures var once := OnTrade(db, symbol, price, now, false, map[]);
      OnTrade(once, symbol, price, now, false, map[]) == once
  {
    var px := PriceOrZero(price);
    var once := OnTrade(db, symbol, price, now, false, map[]);
    OnTradeFills(db, symbol, price, now);
    var fetched := OrderStore.GetOpenBySymbol(once, symbol);
    forall j | 0 <= j < |fetched| ensures !ShouldMatch(fetched[j], px) {
      var i :| 0 <= i < |once.orders| && once.orders[i] == fetched[j];
      if Crossed(db.orders[i], symbol, px) {
        FilledNeverMatches(db.orders[i], px);
      }
    }
    MatchAllNone(once, fetched, px, now, map[]);
  }

  /** As written, a trade whose price does not parse is matched at price
      0: every open BUY of the symbol with a positive limit and quantity
      left is filled at 0, for a zero fee. */
  lemma UnparseablePriceFillsBuys(db: Db, symbol: string, now: int, i: int)
    requires OrderIdsFresh(db)
    requires 0 <= i < |db.orders|
    requires db.orders[i].symbol == symbol && IsOpen(db.orders[i].status) && db.orders[i].side == Buy
    requires db.orders[i].price > 0.0 && db.orders[i].executedQty < db.orders[i].quantity
    ensures OnTrade(db, symbol, None, now, false, map[]).orders[i] == FilledOrder(db.orders[i])
    ensures FillTrade(db.orders[i], PriceOrZero(None)).fee == 0.0
  {
    OnTradeFills(db, symbol, None, now);
  }

  /** `OnTrade` that drops a trade whose price does not parse, instead of
      matching it at 0. */
  function OnTradeChecked(db: Db, symbol: string, price: Option<real>, now: int, queryFails: bool,
                          fails: map<int, set<Step>>): (r: Db)
    ensures price.None? ==> r == db
    ensures price.Some? ==> r == OnTrade(db, symbol, price, now, queryFails, fails)
  {
    if price.None? then db else OnTrade(db, symbol, price, now, queryFails, fails)
  }

  /** With the check, an order is filled only by a price that actually
      crosses it: every filled order saw a parsed trade price below its BUY
      limit or above its SELL limit. */
  lemma CheckedFillsOnlyCrossed(db: Db, symbol: string, price: Option<real>, now: int, i: int)
    requires OrderIdsFresh(db)
    requires 0 <= i < |db.orders|
    requires OnTradeChecked(db, symbol, price, now, false, map[]).orders[i] != db.orders[i]
    ensures price.Some? && db.orders[i].symbol == symbol
    ensures db.orders[i].side == Buy ==> price.value < db.orders[i].price
    ensures db.orders[i].side == Sell ==> price.value > db.orders[i].price
  {
    OnTradeFills(db, symbol, price, now);
  }
}
