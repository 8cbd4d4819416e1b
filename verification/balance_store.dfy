/** The balances table (internal/store/balance_store.go), keyed by api key. */
module BalanceStore {
  import opened Common
  import opened Models

  /** `Get`: the stored row, or, when the key has no row, a zero balance
      carrying that key (not an error). Only a failing statement (`fault`)
      is an error. */
  function Get(db: Db, apiKey: string, fault: bool): (r: Result<Balance, DbError>)
    ensures r.Ok? <==> !fault
    ensures r.Ok? && apiKey in db.balances ==> r.value == db.balances[apiKey]
    ensures r.Ok? && apiKey !in db.balances ==> r.value == Balance(apiKey, 0.0, 0.0, 0.0)
    ensures r.Ok? && BalancesKeyed(db.balances) ==> r.value.apiKey == apiKey
  {
    if fault then Err(DbError)
    else if apiKey in db.balances then Ok(db.balances[apiKey])
    else Ok(Balance(apiKey, 0.0, 0.0, 0.0))
  }

  /** `Update`: INSERT … ON CONFLICT(api_key) DO UPDATE, an upsert of
      available, frozen and total PnL under `b.apiKey`. */
  function Update(db: Db, b: Balance, fault: bool): (r: Result<Db, DbError>)
    ensures r.Ok? <==> !fault
    ensures r.Ok? ==> r.value.(balances := db.balances) == db
    ensures r.Ok? ==> r.value.balances.Keys == db.balances.Keys + {b.apiKey}
    ensures r.Ok? ==> r.value.balances[b.apiKey] == b
    ensures r.Ok? ==> forall k :: k in db.balances && k != b.apiKey ==> r.value.balances[k] == db.balances[k]
  {
    if fault then Err(DbError) else Ok(db.(balances := db.balances[b.apiKey := b]))
  }

  /** After `Update(b)`, `Get(b.apiKey)` returns `b`'s amounts; any other
      key reads back what it read before. */
  lemma UpdateThenGet(db: Db, b: Balance, k: string)
    ensures Get(Update(db, b, false).value, b.apiKey, false) == Ok(b)
    ensures k != b.apiKey ==> Get(Update(db, b, false).value, k, false) == Get(db, k, false)
  {
  }

  /** Writing the same balance twice is the same as writing it once. */
  lemma UpdateIdempotent(db: Db, b: Balance)
    ensures Update(Update(db, b, false).value, b, false) == Update(db, b, false)
  {
    assert db.balances[b.apiKey := b][b.apiKey := b] == db.balances[b.apiKey := b];
  }

  /** `Update` keeps the table constraints when the row carries its own key. */
  lemma UpdateKeepsValid(db: Db, b: Balance)
    requires Valid(db)
    ensures Valid(Update(db, b, false).value)
  {
  }
}
