/** The orders and trades tables (internal/store/order_store.go). */
module OrderStore {
  import opened Common
  import opened Seqs
  import opened Models

  /** The column values `Create` inserts. `side` and `orderType` are the raw
      texts the caller passes; the table's CHECK constraints decide them. */
  datatype OrderDraft = OrderDraft(
    apiKey: string,
    symbol: string,
    side: string,
    orderType: string,
    price: real,
    quantity: real,
    leverage: int,
    clientOrderId: string)

  /** The row `Create` stores for a draft: status and executed quantity come
      from the column defaults 'NEW' and 0, the id from AUTOINCREMENT. */
  function RowOf(d: OrderDraft, side: Side, id: int, now: int): Order
  {
    Order(id, d.apiKey, d.symbol, side, d.price, d.quantity, 0.0, d.leverage, New, d.clientOrderId, now)
  }

  /** `o` is the row stored for draft `d` under id `id` at time `now`. */
  predicate NewRowOf(o: Order, d: OrderDraft, id: int, now: int)
  {
    && o.id == id && o.status == New && o.executedQty == 0.0
    && SideText(o.side) == d.side && o.apiKey == d.apiKey && o.symbol == d.symbol
    && o.price == d.price && o.quantity == d.quantity && o.leverage == d.leverage
    && o.clientOrderId == d.clientOrderId && o.createdAt == now
  }

  /** INSERT INTO orders. Fails when the statement fails (`fault`) or when a
      CHECK constraint rejects the side or the type; otherwise appends one
      row and returns its fresh id. */
  function Create(db: Db, d: OrderDraft, now: int, fault: bool): (r: Result<(Db, int), DbError>)
    ensures r.Ok? <==> !fault && (d.side == "BUY" || d.side == "SELL") && d.orderType == "LIMIT"
    ensures r.Ok? ==> r.value.1 == db.nextOrderId && r.value.0.nextOrderId == db.nextOrderId + 1
    ensures r.Ok? ==> |r.value.0.orders| == |db.orders| + 1
    ensures r.Ok? ==> r.value.0.orders == db.orders + [r.value.0.orders[|db.orders|]]
    ensures r.Ok? ==> r.value.0.(orders := db.orders, nextOrderId := db.nextOrderId) == db
    ensures r.Ok? ==> NewRowOf(r.value.0.orders[|db.orders|], d, r.value.1, now)
  {
    var side := ParseSide(d.side);
    if fault || side.None? || d.orderType != "LIMIT" then Err(DbError)
    else
      var id := db.nextOrderId;
      Ok((db.(orders := db.orders + [RowOf(d, side.value, id, now)], nextOrderId := id + 1), id))
  }

  /** `Create` keeps the table constraints. */
  lemma CreateKeepsValid(db: Db, d: OrderDraft, now: int)
    requires Valid(db)
    requires Create(db, d, now, false).Ok?
    ensures Valid(Create(db, d, now, false).value.0)
  {
  }

  function CreatedAtKey(o: Order): real { o.createdAt as real }

  /** `SELECT … WHERE api_key = ? ORDER BY created_at DESC`. */
  function GetByAPIKey(db: Db, apiKey: string): (r: seq<Order>)
    ensures forall i :: 0 <= i < |r| ==> r[i].apiKey == apiKey && r[i] in db.orders
    ensures forall o :: o in db.orders && o.apiKey == apiKey ==> o in r
    ensures multiset(r) == multiset(Filter(db.orders, (o: Order) => o.apiKey == apiKey))
    ensures forall i, j :: 0 <= i < j < |r| ==> r[i].createdAt >= r[j].createdAt
  {
    var mine := Filter(db.orders, (o: Order) => o.apiKey == apiKey);
    var r := SortDesc(mine, CreatedAtKey);
    SortedMembers(mine, r, db.orders, apiKey);
    r
  }

  lemma SortedMembers(mine: seq<Order>, r: seq<Order>, orders: seq<Order>, apiKey: string)
    requires mine == Filter(orders, (o: Order) => o.apiKey == apiKey)
    requires multiset(r) == multiset(mine)
    ensures forall i :: 0 <= i < |r| ==> r[i].apiKey == apiKey && r[i] in orders
    ensures forall o :: o in orders && o.apiKey == apiKey ==> o in r
  {
    PermutationMembers(r, mine);
    forall o | o in orders && o.apiKey == apiKey ensures o in r {
      FilterMembers(orders, (o: Order) => o.apiKey == apiKey, o);
    }
    forall i | 0 <= i < |r| ensures r[i].apiKey == apiKey && r[i] in orders {
      assert r[i] in mine;
      FilterMembers(orders, (o: Order) => o.apiKey == apiKey, r[i]);
    }
  }

  /** `SELECT … WHERE symbol = ? AND status IN ('NEW', 'PARTIALLY_FILLED')`,
      in table order. */
  function GetOpenBySymbol(db: Db, symbol: string): (r: seq<Order>)
    ensures forall i :: 0 <= i < |r| ==> r[i] in db.orders && r[i].symbol == symbol && IsOpen(r[i].status)
    ensures forall o :: o in db.orders && o.symbol == symbol && IsOpen(o.status) ==> o in r
  {
    Filter(db.orders, OpenIn(symbol))
  }

  /** Each open order of the symbol is returned exactly as often as the
      table holds it, and no other row is returned. */
  lemma GetOpenBySymbolCounts(db: Db, symbol: string, o: Order)
    ensures multiset(GetOpenBySymbol(db, symbol))[o]
         == if o.symbol == symbol && IsOpen(o.status) then multiset(db.orders)[o] else 0
  {
    FilterCount(db.orders, OpenIn(symbol), o);
  }

  /** The `WHERE` condition of `GetOpenBySymbol`. */
  function OpenIn(symbol: string): Order -> bool
  {
    (o: Order) => o.symbol == symbol && IsOpen(o.status)
  }

  /** The row an UPDATE … WHERE id = ? writes. */
  function SetStatus(orders: seq<Order>, id: int, status: OrderStatus, executedQty: real): (r: seq<Order>)
    ensures |r| == |orders|
    ensures forall i :: 0 <= i < |orders| && orders[i].id != id ==> r[i] == orders[i]
    ensures forall i :: 0 <= i < |orders| && orders[i].id == id ==>
              r[i] == orders[i].(status := status, executedQty := executedQty)
  {
    seq(|orders|, i requires 0 <= i < |orders| =>
      if orders[i].id == id then orders[i].(status := status, executedQty := executedQty) else orders[i])
  }

  /** `UPDATE orders SET status = ?, executed_qty = ? WHERE id = ?`. An
      unknown id matches no row and is not an error. */
  function UpdateStatus(db: Db, id: int, status: OrderStatus, executedQty: real, fault: bool): (r: Result<Db, DbError>)
    ensures r.Ok? <==> !fault
    ensures r.Ok? ==> r.value == db.(orders := SetStatus(db.orders, id, status, executedQty))
  {
    if fault then Err(DbError) else Ok(db.(orders := SetStatus(db.orders, id, status, executedQty)))
  }

  /** `UPDATE orders SET status = 'CANCELLED' WHERE id = ? AND status IN
      ('NEW', 'PARTIALLY_FILLED')`: only an open order changes, and neither a
      closed order nor an unknown id is an error. */
  function Cancel(db: Db, id: int, fault: bool): (r: Result<Db, DbError>)
    ensures r.Ok? <==> !fault
    ensures r.Ok? ==> var db' := r.value;
      && db'.(orders := db.orders) == db
      && |db'.orders| == |db.orders|
      && (forall i :: 0 <= i < |db.orders| && db.orders[i].id != id ==> db'.orders[i] == db.orders[i])
      && (forall i :: 0 <= i < |db.orders| && db.orders[i].id == id && !IsOpen(db.orders[i].status) ==>
            db'.orders[i] == db.orders[i])
      && (forall i :: 0 <= i < |db.orders| && db.orders[i].id == id && IsOpen(db.orders[i].status) ==>
            db'.orders[i] == db.orders[i].(status := Cancelled))
  {
    if fault then Err(DbError)
    else
      Ok(db.(orders := seq(|db.orders|, i requires 0 <= i < |db.orders| =>
        if db.orders[i].id == id && IsOpen(db.orders[i].status)
        then db.orders[i].(status := Cancelled) else db.orders[i])))
  }

  /** Cancelling twice is the same as cancelling once. */
  lemma CancelIdempotent(db: Db, id: int)
    ensures Cancel(Cancel(db, id, false).value, id, false) == Cancel(db, id, false)
  {
    var once := Cancel(db, id, false).value;
    var twice := Cancel(once, id, false).value;
    assert twice.orders == once.orders;
  }

  /** After a cancel no order with that id is still open, and an order that
      was already FILLED or CANCELLED is exactly as it was. */
  lemma CancelCloses(db: Db, id: int)
    ensures forall i :: 0 <= i < |db.orders| && db.orders[i].id == id ==>
      var o' := Cancel(db, id, false).value.orders[i];
      !IsOpen(o'.status)
      && (!IsOpen(db.orders[i].status) ==> o' == db.orders[i])
  {
  }

  /** The inputs of an INSERT INTO trades. */
  datatype TradeDraft = TradeDraft(
    orderId: int,
    apiKey: string,
    symbol: string,
    side: Side,
    price: real,
    quantity: real,
    quoteQty: real,
    fee: real)

  /** `INSERT INTO trades`: appends exactly one row and leaves orders alone. */
  function CreateTrade(db: Db, t: TradeDraft, now: int, fault: bool): (r: Result<Db, DbError>)
    ensures r.Ok? <==> !fault
    ensures r.Ok? ==>
      && r.value.trades == db.trades + [Trade(db.nextTradeId, t.orderId, t.apiKey, t.symbol, t.side,
                                              t.price, t.quantity, t.quoteQty, t.fee, now)]
      && r.value.nextTradeId == db.nextTradeId + 1
      && r.value.(trades := db.trades, nextTradeId := db.nextTradeId) == db
  {
    if fault then Err(DbError)
    else
      var row := Trade(db.nextTradeId, t.orderId, t.apiKey, t.symbol, t.side, t.price, t.quantity, t.quoteQty, t.fee, now);
      Ok(db.(trades := db.trades + [row], nextTradeId := db.nextTradeId + 1))
  }
}
