/** The exchange's records and the in-memory image of its SQLite tables.
    The enumerations are the values the schema's CHECK constraints admit. */
module Models {
  import opened Common

  /** `side IN ('BUY', 'SELL')` on orders. */
  datatype Side = Buy | Sell

  /** `status IN ('NEW', 'PARTIALLY_FILLED', 'FILLED', 'CANCELLED')`. */
  datatype OrderStatus = New | PartiallyFilled | Filled | Cancelled

  /** `side IN ('LONG', 'SHORT')` on positions. */
  datatype PositionSide = Long | Short

  function SideText(s: Side): string
  {
    match s
    case Buy => "BUY"
    case Sell => "SELL"
  }

  /** The CHECK on `orders.side`: only the two names are admitted, and an
      admitted name reads back as itself. */
  function ParseSide(t: string): (r: Option<Side>)
    ensures r.Some? <==> t == "BUY" || t == "SELL"
    ensures r.Some? ==> SideText(r.value) == t
  {
    if t == "BUY" then Some(Buy)
    else if t == "SELL" then Some(Sell)
    else None
  }

  function StatusText(s: OrderStatus): string
  {
    match s
    case New => "NEW"
    case PartiallyFilled => "PARTIALLY_FILLED"
    case Filled => "FILLED"
    case Cancelled => "CANCELLED"
  }

  /** The CHECK on `orders.status`. */
  function ParseStatus(t: string): (r: Option<OrderStatus>)
    ensures r.Some? <==> t in {"NEW", "PARTIALLY_FILLED", "FILLED", "CANCELLED"}
    ensures r.Some? ==> StatusText(r.value) == t
  {
    if t == "NEW" then Some(New)
    else if t == "PARTIALLY_FILLED" then Some(PartiallyFilled)
    else if t == "FILLED" then Some(Filled)
    else if t == "CANCELLED" then Some(Cancelled)
    else None
  }

  /** `status IN ('NEW', 'PARTIALLY_FILLED')`: the order can still trade. */
  predicate IsOpen(s: OrderStatus)
  {
    s == New || s == PartiallyFilled
  }

  /** A row of `orders`. The `type` column is constrained to 'LIMIT' and is
      therefore not stored. Timestamps are abstract clock readings. */
  datatype Order = Order(
    id: int,
    apiKey: string,
    symbol: string,
    side: Side,
    price: real,
    quantity: real,
    executedQty: real,
    leverage: int,
    status: OrderStatus,
    clientOrderId: string,
    createdAt: int)
  {
    function Remaining(): real { quantity - executedQty }
  }

  /** A row of `trades`. */
  datatype Trade = Trade(
    id: int,
    orderId: int,
    apiKey: string,
    symbol: string,
    side: Side,
    price: real,
    quantity: real,
    quoteQty: real,
    fee: real,
    at: int)

  /** A row of `positions`; (apiKey, symbol) is its primary key. */
  datatype Position = Position(
    apiKey: string,
    symbol: string,
    side: PositionSide,
    entryPrice: real,
    size: real,
    leverage: int,
    margin: real,
    unrealizedPnl: real)

  /** A row of `balances`. */
  datatype Balance = Balance(apiKey: string, available: real, frozen: real, totalPnl: real)

  /** A row of `api_keys`: one registered strategy. */
  datatype Account = Account(key: string, name: string, description: string, initialBalance: real)

  /** A row of `pnl_snapshots`. */
  datatype Snapshot = Snapshot(id: int, apiKey: string, totalPnl: real, available: real, frozen: real, at: int)

  /** The database. Tables without a primary key other than a row id are
      sequences in insertion order; `balances` is keyed by its primary key.
      The `next…Id` fields are the AUTOINCREMENT counters. */
  datatype Db = Db(
    accounts: seq<Account>,
    orders: seq<Order>,
    trades: seq<Trade>,
    positions: seq<Position>,
    balances: map<string, Balance>,
    snapshots: seq<Snapshot>,
    nextOrderId: int,
    nextTradeId: int,
    nextSnapshotId: int)

  /** PRIMARY KEY (api_key, symbol) on `positions`. */
  predicate PositionKeysUnique(ps: seq<Position>)
  {
    forall i, j :: 0 <= i < j < |ps| ==> (ps[i].apiKey, ps[i].symbol) != (ps[j].apiKey, ps[j].symbol)
  }

  /** `key TEXT PRIMARY KEY` on `api_keys`. */
  predicate AccountKeysUnique(accounts: seq<Account>)
  {
    forall i, j :: 0 <= i < j < |accounts| ==> accounts[i].key != accounts[j].key
  }

  /** Row ids handed out by AUTOINCREMENT grow with insertion order and stay
      below the counter. */
  predicate OrderIdsFresh(db: Db)
  {
    && 1 <= db.nextOrderId
    && (forall i :: 0 <= i < |db.orders| ==> 1 <= db.orders[i].id < db.nextOrderId)
    && (forall i, j :: 0 <= i < j < |db.orders| ==> db.orders[i].id < db.orders[j].id)
  }

  /** `balances` is keyed by its `api_key` column. */
  predicate BalancesKeyed(balances: map<string, Balance>)
  {
    forall k :: k in balances ==> balances[k].apiKey == k
  }

  /** The table constraints the schema declares. */
  predicate Valid(db: Db)
  {
    && AccountKeysUnique(db.accounts)
    && OrderIdsFresh(db)
    && PositionKeysUnique(db.positions)
    && BalancesKeyed(db.balances)
    && (forall i :: 0 <= i < |db.trades| ==> db.trades[i].id < db.nextTradeId)
    && (forall i :: 0 <= i < |db.snapshots| ==> db.snapshots[i].id < db.nextSnapshotId)
  }

  /** A freshly migrated, empty database. */
  function EmptyDb(accounts: seq<Account>): (db: Db)
    requires AccountKeysUnique(accounts)
    ensures Valid(db)
  {
    Db(accounts, [], [], [], map[], [], 1, 1, 1)
  }

  function AccountKeys(db: Db): seq<string>
  {
    seq(|db.accounts|, i requires 0 <= i < |db.accounts| => db.accounts[i].key)
  }
}
