/** The request handlers of internal/api/handlers.go that carry decisions:
    order creation (validation and defaulting), cancellation, and the account
    view. Gin's routing and JSON decoding are not modelled; a body whose JSON
    is malformed is given as none, the required-field check is modelled, and
    text-to-number parsing is a parameter. */
module Handlers {
  import opened Common
  import opened Models
  import OrderStore
  import BalanceStore
  import PositionStore

  /** The fields of `CreateOrderRequest` as decoded from the JSON body. A
      body whose JSON is malformed is none; binding then still fails (and
      the handler answers -1100) when a required field is missing or empty,
      which `Binds` states. */
  datatype CreateOrderRequest = CreateOrderRequest(
    symbol: string,
    side: string,
    orderType: string,
    timeInForce: string,
    quantity: string,
    price: string,
    leverage: int,
    clientOrderId: string)

  /** Gin's `binding:"required"` rejects a field's zero value, so each of
      symbol, side, type, quantity and price must be a non-empty text. */
  predicate Binds(req: CreateOrderRequest)
  {
    req.symbol != "" && req.side != "" && req.orderType != "" && req.quantity != "" && req.price != ""
  }

  /** An HTTP answer: an error body `{"code", "msg"}` under a status, or a
      200 with a payload. */
  datatype Response<+T> = ApiError(status: int, code: int) | Success(body: T)

  /** The order echoed back by `createOrder`: the `models.Order` the handler
      built, with the id `Create` assigned. The side and type are the request
      texts. */
  datatype OrderView = OrderView(
    orderId: int,
    symbol: string,
    side: string,
    orderType: string,
    price: real,
    quantity: real,
    executedQty: real,
    leverage: int,
    status: OrderStatus,
    clientOrderId: string)

  /** `strconv.ParseFloat` with its error discarded: an unparseable text
      reads as 0. */
  function ParseFloatOr0(parse: string -> Option<real>, text: string): (r: real)
    ensures parse(text).Some? ==> r == parse(text).value
    ensures parse(text).None? ==> r == 0.0
  {
    match parse(text)
    case Some(v) => v
    case None => 0.0
  }

  /** The default leverage 10 stands in for a missing (zero) leverage. */
  function EffectiveLeverage(requested: int): (r: int)
    ensures requested == 0 ==> r == 10
    ensures requested != 0 ==> r == requested
  {
    if requested == 0 then 10 else requested
  }

  /** The store draft built from a LIMIT request. */
  function DraftOf(apiKey: string, req: CreateOrderRequest, parse: string -> Option<real>): OrderStore.OrderDraft
  {
    OrderStore.OrderDraft(apiKey, req.symbol, req.side, req.orderType,
                          ParseFloatOr0(parse, req.price), ParseFloatOr0(parse, req.quantity),
                          EffectiveLeverage(req.leverage), req.clientOrderId)
  }

  /** `createOrder`: -1100 (400) when the body is malformed or a required
      field is missing or empty, -1106 (400)
      for any type but LIMIT, -1000 (500) when the insert fails (which
      includes a side the table's CHECK rejects); otherwise the new order,
      status NEW, carrying the request's fields. Nothing is written on any
      error. */
  function CreateOrder(db: Db, apiKey: string, body: Option<CreateOrderRequest>,
                       parse: string -> Option<real>, now: int, fault: bool): (r: (Db, Response<OrderView>))
    ensures body.None? || !Binds(body.value) ==> r == (db, ApiError(400, -1100))
    ensures body.Some? && Binds(body.value) && body.value.orderType != "LIMIT" ==> r == (db, ApiError(400, -1106))
    ensures r.1.ApiError? ==> r.0 == db
    ensures r.1.ApiError? && body.Some? && Binds(body.value) && body.value.orderType == "LIMIT" ==>
              r.1 == ApiError(500, -1000)
    ensures r.1.Success? <==> body.Some? && body.value.orderType == "LIMIT" && !fault
                              && body.value.symbol != "" && body.value.quantity != "" && body.value.price != ""
                              && (body.value.side == "BUY" || body.value.side == "SELL")
    ensures r.1.Success? ==> var req := body.value; var o := r.1.body;
      && o.orderId == db.nextOrderId
      && o.status == New && o.executedQty == 0.0
      && o.symbol == req.symbol && o.side == req.side && o.orderType == "LIMIT"
      && o.clientOrderId == req.clientOrderId
      && o.price == ParseFloatOr0(parse, req.price)
      && o.quantity == ParseFloatOr0(parse, req.quantity)
      && o.leverage == EffectiveLeverage(req.leverage)
  {
    match body
    case None => (db, ApiError(400, -1100))
    case Some(req) =>
      if !Binds(req) then (db, ApiError(400, -1100))
      else if req.orderType != "LIMIT" then (db, ApiError(400, -1106))
      else
        var d := DraftOf(apiKey, req, parse);
        match OrderStore.Create(db, d, now, fault)
        case Err(_) => (db, ApiError(500, -1000))
        case Ok((db', id)) =>
          (db', Success(OrderView(id, req.symbol, req.side, req.orderType, d.price, d.quantity, 0.0,
                                  d.leverage, New, req.clientOrderId)))
  }

  /** The echoed order is the row the store now holds: same id, side,
      prices, leverage and status, under the caller's key, and it is listed
      by the caller's order query. */
  lemma CreateOrderStored(db: Db, apiKey: string, body: Option<CreateOrderRequest>,
                          parse: string -> Option<real>, now: int)
    requires CreateOrder(db, apiKey, body, parse, now, false).1.Success?
    ensures var (db', resp) := CreateOrder(db, apiKey, body, parse, now, false);
      var o := resp.body;
      && |db'.orders| == |db.orders| + 1
      && db'.orders[..|db.orders|] == db.orders
      && var row := db'.orders[|db.orders|];
      && row.id == o.orderId && row.apiKey == apiKey && row.symbol == o.symbol
      && SideText(row.side) == o.side && row.price == o.price && row.quantity == o.quantity
      && row.executedQty == o.executedQty && row.leverage == o.leverage && row.status == o.status
      && row.clientOrderId == o.clientOrderId
      && row in OrderStore.GetByAPIKey(db', apiKey)
  {
    var d := DraftOf(apiKey, body.value, parse);
    var db' := OrderStore.Create(db, d, now, false).value.0;
    assert db'.orders == db.orders + [db'.orders[|db.orders|]];
  }

  /** The body of `cancelOrder`'s reply. */
  datatype CancelView = CancelView(orderId: int, status: string)

  /** `strconv.ParseInt` with its error discarded: an unparseable id reads
      as 0. */
  function ParseIntOr0(parse: string -> Option<int>, text: string): (r: int)
    ensures parse(text).Some? ==> r == parse(text).value
    ensures parse(text).None? ==> r == 0
  {
    match parse(text)
    case Some(v) => v
    case None => 0
  }

  /** `cancelOrder`: whenever the store's cancel does not fail, the reply is
      "CANCELLED" with the requested id, whatever the order's state was. */
  function CancelOrder(db: Db, orderIdText: string, parse: string -> Option<int>, fault: bool): (r: (Db, Response<CancelView>))
    ensures fault ==> r == (db, ApiError(500, -1000))
    ensures !fault ==> r.1 == Success(CancelView(ParseIntOr0(parse, orderIdText), "CANCELLED"))
    ensures !fault ==> r.0 == OrderStore.Cancel(db, ParseIntOr0(parse, orderIdText), false).value
  {
    var id := ParseIntOr0(parse, orderIdText);
    match OrderStore.Cancel(db, id, fault)
    case Err(_) => (db, ApiError(500, -1000))
    case Ok(db') => (db', Success(CancelView(id, "CANCELLED")))
  }

  /** The reply claims CANCELLED even for an order that is already FILLED
      (or CANCELLED), while the store leaves that order as it was. */
  lemma CancelClosedOrderReply(db: Db, orderIdText: string, parse: string -> Option<int>, i: int)
    requires 0 <= i < |db.orders|
    requires db.orders[i].id == ParseIntOr0(parse, orderIdText) && !IsOpen(db.orders[i].status)
    ensures var (db', resp) := CancelOrder(db, orderIdText, parse, false);
      && resp.Success? && resp.body.status == "CANCELLED"
      && db'.orders[i] == db.orders[i]
  {
  }

  /** One entry of the account's balance list. */
  datatype AssetBalance = AssetBalance(asset: string, free: real, locked: real)

  /** The account payload; the commission and permission fields are the
      handler's constants. */
  datatype AccountView = AccountView(
    makerCommission: int,
    takerCommission: int,
    buyerCommission: int,
    sellerCommission: int,
    canTrade: bool,
    canWithdraw: bool,
    canDeposit: bool,
    accountType: string,
    balances: seq<AssetBalance>,
    positions: seq<Position>,
    updateTime: int)

  /** `getAccount`: -1000 (500) when the balance read fails; otherwise one
      USDT balance whose free part is the available amount and whose locked
      part is the frozen amount (both zero for a key with no balance row),
      and the key's positions. */
  function GetAccount(db: Db, apiKey: string, fault: bool, now: int): (r: Response<AccountView>)
    ensures r.ApiError? <==> fault
    ensures r.ApiError? ==> r == ApiError(500, -1000)
    ensures r.Success? ==> var v := r.body;
      && |v.balances| == 1 && v.balances[0].asset == "USDT"
      && (apiKey in db.balances ==>
            v.balances[0].free == db.balances[apiKey].available && v.balances[0].locked == db.balances[apiKey].frozen)
      && (apiKey !in db.balances ==> v.balances[0].free == 0.0 && v.balances[0].locked == 0.0)
      && (forall p :: p in v.positions <==> p in db.positions && p.apiKey == apiKey)
      && (forall p :: multiset(v.positions)[p] == if p.apiKey == apiKey then multiset(db.positions)[p] else 0)
      && v.makerCommission == 2 && v.takerCommission == 5 && v.buyerCommission == 0 && v.sellerCommission == 0
      && v.canTrade && !v.canWithdraw && !v.canDeposit
      && v.accountType == "FUTURES" && v.updateTime == now
  {
    match BalanceStore.Get(db, apiKey, fault)
    case Err(_) => ApiError(500, -1000)
    case Ok(b) =>
      Success(AccountView(2, 5, 0, 0, true, false, false, "FUTURES", [AssetBalance("USDT", b.available, b.frozen)],
                          PositionStore.GetByAPIKey(db, apiKey), now))
  }

  /** After a balance write, the account view reports the written amounts. */
  lemma UpdateThenAccount(db: Db, b: Balance, now: int)
    ensures var v := GetAccount(BalanceStore.Update(db, b, false).value, b.apiKey, false, now).body;
      v.balances == [AssetBalance("USDT", b.available, b.frozen)]
  {
    BalanceStore.UpdateThenGet(db, b, b.apiKey);
  }
}
