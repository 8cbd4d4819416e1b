/** The leaderboard and per-strategy statistics queries
    (internal/store/leaderboard_store.go): one row per registered api key,
    with the balance LEFT JOINed (missing values read as 0) and the trades
    counted. */
module LeaderboardStore {
  import opened Common
  import opened Seqs
  import opened Models
  import OrderStore

  /** A `LeaderboardEntry`. `winCount` is never filled in by the query and
      stays at its zero value. */
  datatype Entry = Entry(
    apiKey: string,
    name: string,
    description: string,
    initialBalance: real,
    available: real,
    totalPnl: real,
    tradeCount: nat,
    winCount: int,
    roi: real)

  /** A `StrategyStats`; `winCount`, `lossCount` and `maxDrawdown` likewise
      stay zero. */
  datatype Stats = Stats(
    apiKey: string,
    name: string,
    initialBalance: real,
    available: real,
    frozen: real,
    totalPnl: real,
    tradeCount: nat,
    winCount: int,
    lossCount: int,
    roi: real,
    maxDrawdown: real)

  /** Return on investment in percent; left at zero when the initial
      balance is not positive, so there is no division by zero. */
  function Roi(totalPnl: real, initialBalance: real): (r: real)
    ensures initialBalance > 0.0 ==> r * initialBalance == totalPnl * 100.0
    ensures initialBalance <= 0.0 ==> r == 0.0
    ensures initialBalance > 0.0 ==> (r > 0.0 <==> totalPnl > 0.0)
  {
    if initialBalance > 0.0 then (totalPnl / initialBalance) * 100.0 else 0.0
  }

  /** `COUNT(t.id)` over the trades LEFT JOINed on the key. */
  function TradeCount(db: Db, apiKey: string): nat
  {
    Count(db.trades, (t: Trade) => t.apiKey == apiKey)
  }

  /** `COALESCE(b.available, 0)`. */
  function AvailableOr0(db: Db, apiKey: string): real
  {
    if apiKey in db.balances then db.balances[apiKey].available else 0.0
  }

  /** `COALESCE(b.frozen, 0)`. */
  function FrozenOr0(db: Db, apiKey: string): real
  {
    if apiKey in db.balances then db.balances[apiKey].frozen else 0.0
  }

  /** `COALESCE(b.total_pnl, 0)`. */
  function TotalPnlOr0(db: Db, apiKey: string): real
  {
    if apiKey in db.balances then db.balances[apiKey].totalPnl else 0.0
  }

  /** The grouped row of one account. */
  function EntryOf(db: Db, a: Account): Entry
  {
    var pnl := TotalPnlOr0(db, a.key);
    Entry(a.key, a.name, a.description, a.initialBalance, AvailableOr0(db, a.key), pnl,
          TradeCount(db, a.key), 0, Roi(pnl, a.initialBalance))
  }

  function PnlKey(e: Entry): real { e.totalPnl }

  /** `GetLeaderboard`: every account's grouped row, `ORDER BY total_pnl
      DESC`. Rows with equal PnL come in an order SQLite does not fix; the
      model's order is one of those it may choose. */
  function GetLeaderboard(db: Db, fault: bool): (r: Result<seq<Entry>, DbError>)
    ensures r.Ok? <==> !fault
    ensures r.Ok? ==> |r.value| == |db.accounts|
    ensures r.Ok? ==> multiset(r.value) == multiset(Map(db.accounts, a => EntryOf(db, a)))
    ensures r.Ok? ==> forall i, j :: 0 <= i < j < |r.value| ==> r.value[i].totalPnl >= r.value[j].totalPnl
  {
    if fault then Err(DbError)
    else
      var rows := SortDesc(Map(db.accounts, a => EntryOf(db, a)), PnlKey);
      assert forall i, j :: 0 <= i < j < |rows| ==> PnlKey(rows[i]) >= PnlKey(rows[j]);
      Ok(rows)
  }

  /** The leaderboard lists every registered key exactly once, and nothing
      else; each entry carries its key's balance (zero when there is no
      balance row), its trade count and its ROI. */
  lemma LeaderboardOnePerKey(db: Db)
    requires AccountKeysUnique(db.accounts)
    ensures var r := GetLeaderboard(db, false).value;
      && (forall i, j :: 0 <= i < j < |r| ==> r[i].apiKey != r[j].apiKey)
      && (forall a :: a in db.accounts ==> EntryOf(db, a) in r)
      && (forall i :: 0 <= i < |r| ==> exists a :: a in db.accounts && r[i] == EntryOf(db, a))
  {
    var rows := Map(db.accounts, a => EntryOf(db, a));
    var r := GetLeaderboard(db, false).value;
    assert Distinct(rows) by {
      forall i, j | 0 <= i < j < |rows| ensures rows[i] != rows[j] {
        assert rows[i].apiKey == db.accounts[i].key;
      }
    }
    PermutationDistinct(r, rows);
    PermutationMembers(r, rows);
    forall a | a in db.accounts ensures EntryOf(db, a) in r {
      var i :| 0 <= i < |db.accounts| && db.accounts[i] == a;
      assert rows[i] == EntryOf(db, a);
    }
    forall i | 0 <= i < |r| ensures exists a :: a in db.accounts && r[i] == EntryOf(db, a) {
      assert r[i] in rows;
      var k :| 0 <= k < |rows| && rows[k] == r[i];
      assert db.accounts[k] in db.accounts;
    }
    forall i, j | 0 <= i < j < |r| ensures r[i].apiKey != r[j].apiKey {
      assert r[i] in rows && r[j] in rows;
      var a :| 0 <= a < |rows| && rows[a] == r[i];
      var b :| 0 <= b < |rows| && rows[b] == r[j];
      if a != b {
        assert rows[a].apiKey == db.accounts[a].key && rows[b].apiKey == db.accounts[b].key;
        if a < b {
          assert db.accounts[a].key != db.accounts[b].key;
        } else {
          assert db.accounts[b].key != db.accounts[a].key;
        }
      }
    }
  }

  /** The first account row with the key: `WHERE a.key = ?`. */
  function FindAccount(accounts: seq<Account>, apiKey: string): (r: Option<Account>)
    ensures r.None? <==> forall a :: a in accounts ==> a.key != apiKey
    ensures r.Some? ==> r.value in accounts && r.value.key == apiKey
  {
    if |accounts| == 0 then None
    else if accounts[0].key == apiKey then Some(accounts[0])
    else FindAccount(accounts[1..], apiKey)
  }

  /** `GetStrategyStats`: none (Go's `nil, nil`) for an unregistered key,
      otherwise the account's grouped row with the frozen amount added. */
  function GetStrategyStats(db: Db, apiKey: string, fault: bool): (r: Result<Option<Stats>, DbError>)
    ensures r.Ok? <==> !fault
    ensures r.Ok? ==> (r.value.None? <==> forall a :: a in db.accounts ==> a.key != apiKey)
    ensures r.Ok? && r.value.Some? ==> var s := r.value.value;
      && s.apiKey == apiKey
      && s.available == AvailableOr0(db, apiKey)
      && s.frozen == FrozenOr0(db, apiKey)
      && s.totalPnl == TotalPnlOr0(db, apiKey)
      && s.tradeCount == TradeCount(db, apiKey)
      && s.winCount == 0 && s.lossCount == 0 && s.maxDrawdown == 0.0
      && exists a :: a in db.accounts && a.key == apiKey && s.name == a.name
           && s.initialBalance == a.initialBalance && s.roi == Roi(s.totalPnl, a.initialBalance)
  {
    if fault then Err(DbError)
    else
      match FindAccount(db.accounts, apiKey)
      case None => Ok(None)
      case Some(a) =>
        var pnl := TotalPnlOr0(db, apiKey);
        Ok(Some(Stats(apiKey, a.name, a.initialBalance, AvailableOr0(db, apiKey), FrozenOr0(db, apiKey),
                      pnl, TradeCount(db, apiKey), 0, 0, Roi(pnl, a.initialBalance), 0.0)))
  }

  /** The strategy statistics of a registered key agree with its
      leaderboard entry on every column the two queries share. */
  lemma StatsAgreeWithLeaderboard(db: Db, apiKey: string)
    requires AccountKeysUnique(db.accounts)
    requires exists a :: a in db.accounts && a.key == apiKey
    ensures GetStrategyStats(db, apiKey, false).value.Some?
    ensures var s := GetStrategyStats(db, apiKey, false).value.value;
      exists e :: e in GetLeaderboard(db, false).value && e.apiKey == apiKey
        && e.name == s.name && e.initialBalance == s.initialBalance && e.available == s.available
        && e.totalPnl == s.totalPnl && e.tradeCount == s.tradeCount && e.roi == s.roi
  {
    var s := GetStrategyStats(db, apiKey, false).value.value;
    var a :| a in db.accounts && a.key == apiKey && s.name == a.name && s.initialBalance == a.initialBalance
             && s.roi == Roi(s.totalPnl, a.initialBalance);
    LeaderboardOnePerKey(db);
    assert EntryOf(db, a) in GetLeaderboard(db, false).value;
  }

  /** Recording a trade raises the trade count of its own key by one and of
      no other key. */
  lemma CreateTradeCounts(db: Db, t: OrderStore.TradeDraft, now: int, apiKey: string)
    ensures TradeCount(OrderStore.CreateTrade(db, t, now, false).value, apiKey)
         == TradeCount(db, apiKey) + (if t.apiKey == apiKey then 1 else 0)
  {
    var db' := OrderStore.CreateTrade(db, t, now, false).value;
    var row := db'.trades[|db.trades|];
    assert db'.trades == db.trades + [row];
    CountAppend(db.trades, [row], (x: Trade) => x.apiKey == apiKey);
  }
}
