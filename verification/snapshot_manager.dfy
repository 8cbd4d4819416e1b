/** The PnL snapshot manager (internal/snapshot/manager.go): one snapshot
    per registered strategy, taken from its current balance. The ten-minute
    ticker that calls `takeSnapshot` is not part of this model; the clock
    reading it stamps rows with is the input `now`. */
module SnapshotManager {
  import opened Common
  import opened Seqs
  import opened Models
  import BalanceStore
  import SnapshotStore

  /** The row a successful snapshot of `apiKey` inserts: the key's balance
      amounts, zero for a key without a balance row. */
  function SnapshotOf(db: Db, apiKey: string, id: int, now: int): Snapshot
  {
    var b := BalanceStore.Get(db, apiKey, false).value;
    Snapshot(id, apiKey, b.totalPnl, b.available, b.frozen, now)
  }

  /** One iteration of the per-key loop: read the balance, insert the
      snapshot; a failure at either step is logged and the key skipped. */
  function SnapshotKey(db: Db, apiKey: string, readFails: set<string>, insertFails: set<string>, now: int): Db
  {
    match BalanceStore.Get(db, apiKey, apiKey in readFails)
    case Err(_) => db
    case Ok(b) =>
      match SnapshotStore.CreateSnapshot(db, apiKey, b.totalPnl, b.available, b.frozen, now, apiKey in insertFails)
      case Err(_) => db
      case Ok(db') => db'
  }

  /** The per-key loop over `keys`, as a recursive reference definition. */
  function SnapshotAll(db: Db, keys: seq<string>, readFails: set<string>, insertFails: set<string>, now: int): Db
    decreases |keys|
  {
    if |keys| == 0 then db
    else SnapshotAll(SnapshotKey(db, keys[0], readFails, insertFails, now), keys[1..], readFails, insertFails, now)
  }

  /** The keys that get a snapshot: those whose balance read and insert
      both succeed. */
  function Taken(keys: seq<string>, readFails: set<string>, insertFails: set<string>): seq<string>
  {
    Filter(keys, k => k !in readFails && k !in insertFails)
  }

  /** The rows inserted for `keys`, with consecutive ids from `id`. */
  function NewRows(db: Db, keys: seq<string>, id: int, now: int): (r: seq<Snapshot>)
    ensures |r| == |keys|
    ensures forall i :: 0 <= i < |keys| ==> r[i].apiKey == keys[i] && r[i] == SnapshotOf(db, keys[i], id + i, now)
  {
    seq(|keys|, i requires 0 <= i < |keys| => SnapshotOf(db, keys[i], id + i, now))
  }

  /** The loop appends one row per taken key, in key order, and changes
      nothing but the snapshot table. */
  lemma {:induction false} SnapshotAllRows(db: Db, keys: seq<string>, readFails: set<string>, insertFails: set<string>, now: int)
    ensures var db' := SnapshotAll(db, keys, readFails, insertFails, now);
      var taken := Taken(keys, readFails, insertFails);
      && db'.(snapshots := db.snapshots, nextSnapshotId := db.nextSnapshotId) == db
      && db'.snapshots == db.snapshots + NewRows(db, taken, db.nextSnapshotId, now)
      && db'.nextSnapshotId == db.nextSnapshotId + |taken|
    decreases |keys|
  {
    if |keys| > 0 {
      var k := keys[0];
      var db1 := SnapshotKey(db, k, readFails, insertFails, now);
      SnapshotKeyStep(db, k, readFails, insertFails, now);
      SnapshotAllRows(db1, keys[1..], readFails, insertFails, now);
      var rest := Taken(keys[1..], readFails, insertFails);
      NewRowsBalancesOnly(db1, db, rest, db1.nextSnapshotId, now);
      if k !in readFails && k !in insertFails {
        assert Taken(keys, readFails, insertFails) == [k] + rest;
        NewRowsCons(db, k, rest, db.nextSnapshotId, now);
      } else {
        assert Taken(keys, readFails, insertFails) == rest;
      }
    } else {
      assert NewRows(db, [], db.nextSnapshotId, now) == [];
    }
  }

  /** One iteration appends the key's row when both steps succeed and
      otherwise leaves the database as it was. */
  lemma SnapshotKeyStep(db: Db, k: string, readFails: set<string>, insertFails: set<string>, now: int)
    ensures var db1 := SnapshotKey(db, k, readFails, insertFails, now);
      && db1.(snapshots := db.snapshots, nextSnapshotId := db.nextSnapshotId) == db
      && (k !in readFails && k !in insertFails ==>
            && db1.snapshots == db.snapshots + [SnapshotOf(db, k, db.nextSnapshotId, now)]
            && db1.nextSnapshotId == db.nextSnapshotId + 1)
      && (k in readFails || k in insertFails ==> db1 == db)
  {
  }

  /** The inserted rows depend on the database only through its balances. */
  lemma NewRowsBalancesOnly(db1: Db, db: Db, keys: seq<string>, id: int, now: int)
    requires db1.balances == db.balances
    ensures NewRows(db1, keys, id, now) == NewRows(db, keys, id, now)
  {
  }

  lemma NewRowsCons(db: Db, k: string, rest: seq<string>, id: int, now: int)
    ensures [SnapshotOf(db, k, id, now)] + NewRows(db, rest, id + 1, now) == NewRows(db, [k] + rest, id, now)
  {
  }

  /** `takeSnapshot`. When listing the keys fails nothing is written;
      otherwise every registered key whose balance read and insert succeed
      gets exactly one new snapshot carrying its current total PnL,
      available and frozen amounts (all zero without a balance row), and a
      failing key does not stop the keys after it. */
  method TakeSnapshot(db: Db, queryFails: bool, readFails: set<string>, insertFails: set<string>, now: int)
    returns (db': Db)
    requires AccountKeysUnique(db.accounts)
    ensures queryFails ==> db' == db
    ensures db'.(snapshots := db.snapshots, nextSnapshotId := db.nextSnapshotId) == db
    ensures |db'.snapshots| >= |db.snapshots| && db'.snapshots[..|db.snapshots|] == db.snapshots
    ensures !queryFails ==> forall k :: k in AccountKeys(db) && k !in readFails && k !in insertFails ==>
              exists i :: |db.snapshots| <= i < |db'.snapshots| && db'.snapshots[i].apiKey == k
    ensures forall i, j :: |db.snapshots| <= i < j < |db'.snapshots| ==> db'.snapshots[i].apiKey != db'.snapshots[j].apiKey
    ensures forall i :: |db.snapshots| <= i < |db'.snapshots| ==>
              var s := db'.snapshots[i];
              && s.apiKey in AccountKeys(db) && s.apiKey !in readFails && s.apiKey !in insertFails
              && s.at == now && s.id == db.nextSnapshotId + (i - |db.snapshots|)
              && (s.apiKey in db.balances ==>
                    var b := db.balances[s.apiKey];
                    s.totalPnl == b.totalPnl && s.available == b.available && s.frozen == b.frozen)
              && (s.apiKey !in db.balances ==> s.totalPnl == 0.0 && s.available == 0.0 && s.frozen == 0.0)
  {
    if queryFails {
      return db;
    }
    var keys := AccountKeys(db);
    db' := db;
    var i := 0;
    while i < |keys|
      invariant 0 <= i <= |keys|
      invariant SnapshotAll(db', keys[i..], readFails, insertFails, now) == SnapshotAll(db, keys, readFails, insertFails, now)
    {
      assert keys[i..][1..] == keys[i + 1..];
      db' := SnapshotKey(db', keys[i], readFails, insertFails, now);
      i := i + 1;
    }
    SnapshotAllRows(db, keys, readFails, insertFails, now);
    TakenRows(db, keys, readFails, insertFails, now);
  }

  lemma TakenRows(db: Db, keys: seq<string>, readFails: set<string>, insertFails: set<string>, now: int)
    requires keys == AccountKeys(db) && AccountKeysUnique(db.accounts)
    ensures var rows := NewRows(db, Taken(keys, readFails, insertFails), db.nextSnapshotId, now);
      && (forall k :: k in keys && k !in readFails && k !in insertFails ==>
            exists i :: 0 <= i < |rows| && rows[i].apiKey == k)
      && (forall i, j :: 0 <= i < j < |rows| ==> rows[i].apiKey != rows[j].apiKey)
      && (forall i :: 0 <= i < |rows| ==>
            (rows[i].apiKey in keys && rows[i].apiKey !in readFails && rows[i].apiKey !in insertFails
             && rows[i] == SnapshotOf(db, rows[i].apiKey, db.nextSnapshotId + i, now)))
  {
    var taken := Taken(keys, readFails, insertFails);
    TakenCover(keys, readFails, insertFails);
    TakenDistinct(db, keys, readFails, insertFails);
    var rows := NewRows(db, taken, db.nextSnapshotId, now);
    forall k | k in keys && k !in readFails && k !in insertFails
      ensures exists i :: 0 <= i < |rows| && rows[i].apiKey == k
    {
      var i :| 0 <= i < |taken| && taken[i] == k;
      assert rows[i].apiKey == k;
    }
    forall i, j | 0 <= i < j < |rows| ensures rows[i].apiKey != rows[j].apiKey {
      assert rows[i].apiKey == taken[i] && rows[j].apiKey == taken[j];
    }
    forall i | 0 <= i < |rows|
      ensures rows[i].apiKey in keys && rows[i].apiKey !in readFails && rows[i].apiKey !in insertFails
    {
      assert rows[i].apiKey == taken[i] && taken[i] in taken;
    }
  }

  /** The taken keys are exactly the registered keys that fail neither step. */
  lemma TakenCover(keys: seq<string>, readFails: set<string>, insertFails: set<string>)
    ensures forall k :: k in Taken(keys, readFails, insertFails) <==> k in keys && k !in readFails && k !in insertFails
  {
    forall k ensures k in Taken(keys, readFails, insertFails) <==> k in keys && k !in readFails && k !in insertFails {
      FilterMembers(keys, k => k !in readFails && k !in insertFails, k);
    }
  }

  lemma TakenDistinct(db: Db, keys: seq<string>, readFails: set<string>, insertFails: set<string>)
    requires keys == AccountKeys(db) && AccountKeysUnique(db.accounts)
    ensures Distinct(Taken(keys, readFails, insertFails))
  {
    assert Distinct(keys) by {
      forall i, j | 0 <= i < j < |keys| ensures keys[i] != keys[j] {
        assert keys[i] == db.accounts[i].key && keys[j] == db.accounts[j].key;
      }
    }
    FilterDistinct(keys, k => k !in readFails && k !in insertFails);
  }

  /** `TakeSnapshotNow`: one snapshot of `apiKey` from its current balance;
      a failing balance read or insert is returned as the error. */
  function TakeSnapshotNow(db: Db, apiKey: string, readFails: bool, insertFails: bool, now: int): (r: Result<Db, DbError>)
    ensures r.Ok? <==> !readFails && !insertFails
    ensures r.Ok? ==> r.value.(snapshots := db.snapshots, nextSnapshotId := db.nextSnapshotId) == db
    ensures r.Ok? ==> |r.value.snapshots| == |db.snapshots| + 1 && r.value.snapshots[..|db.snapshots|] == db.snapshots
    ensures r.Ok? ==> var s := r.value.snapshots[|db.snapshots|];
      && s.apiKey == apiKey && s.at == now
      && s.totalPnl == (if apiKey in db.balances then db.balances[apiKey].totalPnl else 0.0)
      && s.available == (if apiKey in db.balances then db.balances[apiKey].available else 0.0)
      && s.frozen == (if apiKey in db.balances then db.balances[apiKey].frozen else 0.0)
  {
    match BalanceStore.Get(db, apiKey, readFails)
    case Err(e) => Err(e)
    case Ok(b) =>
      var r := SnapshotStore.CreateSnapshot(db, apiKey, b.totalPnl, b.available, b.frozen, now, insertFails);
      assert r.Ok? ==> r.value.snapshots[..|db.snapshots|] == db.snapshots;
      r
  }

  /** A snapshot taken now, later than any earlier snapshot of the key, is
      what `GetLatestSnapshot` then returns; other keys' histories are
      untouched. */
  lemma TakeSnapshotNowThenLatest(db: Db, apiKey: string, now: int, other: string, limit: int)
    requires forall s :: s in db.snapshots && s.apiKey == apiKey ==> s.at < now
    ensures var db' := TakeSnapshotNow(db, apiKey, false, false, now).value;
      && SnapshotStore.GetLatestSnapshot(db', apiKey) == Some(db'.snapshots[|db.snapshots|])
      && (other != apiKey ==>
            SnapshotStore.GetSnapshotsByAPIKey(db', other, limit) == SnapshotStore.GetSnapshotsByAPIKey(db, other, limit))
  {
    var db' := TakeSnapshotNow(db, apiKey, false, false, now).value;
    var row := db'.snapshots[|db.snapshots|];
    assert db'.snapshots == db.snapshots + [row];
    var latest := SnapshotStore.GetLatestSnapshot(db', apiKey);
    assert row in db'.snapshots;
    assert latest.Some?;
    if other != apiKey {
      var b := BalanceStore.Get(db, apiKey, false).value;
      SnapshotStore.CreateFrame(db, apiKey, b.totalPnl, b.available, b.frozen, now, other, limit);
    }
  }

  /** `GetSnapshots`: the store's newest-first history of the key, the
      newest `limit` of its snapshots (all of them for a negative limit). */
  function GetSnapshots(db: Db, apiKey: string, limit: int): (r: seq<Snapshot>)
    ensures forall i :: 0 <= i < |r| ==> r[i] in db.snapshots && r[i].apiKey == apiKey
    ensures forall i, j :: 0 <= i < j < |r| ==> r[i].at >= r[j].at
    ensures |r| == if 0 <= limit < |SnapshotStore.OfKey(db.snapshots, apiKey)| then limit
                   else |SnapshotStore.OfKey(db.snapshots, apiKey)|
    ensures forall s :: multiset(r)[s] <= if s.apiKey == apiKey then multiset(db.snapshots)[s] else 0
    ensures forall s :: s in db.snapshots && s.apiKey == apiKey && s !in r ==>
              forall i :: 0 <= i < |r| ==> s.at <= r[i].at
  {
    SnapshotStore.GetSnapshotsByAPIKey(db, apiKey, limit)
  }

  /** The head of any non-empty history page is the key's latest snapshot. */
  lemma GetSnapshotsHeadIsLatest(db: Db, apiKey: string, limit: int)
    requires limit != 0
    requires exists s :: s in db.snapshots && s.apiKey == apiKey
    ensures |GetSnapshots(db, apiKey, limit)| > 0
    ensures SnapshotStore.GetLatestSnapshot(db, apiKey) == Some(GetSnapshots(db, apiKey, limit)[0])
  {
    var s :| s in db.snapshots && s.apiKey == apiKey;
    assert s in SnapshotStore.OfKey(db.snapshots, apiKey);
  }

  /** `GetSnapshotsByTimeRange`: the store's range query. */
  function GetSnapshotsByTimeRange(db: Db, apiKey: string, start: int, end: int): (r: seq<Snapshot>)
    ensures forall s :: s in r <==> s in db.snapshots && s.apiKey == apiKey && start <= s.at <= end
    ensures forall i, j :: 0 <= i < j < |r| ==> r[i].at <= r[j].at
    ensures forall s :: multiset(r)[s] == if s.apiKey == apiKey && start <= s.at <= end then multiset(db.snapshots)[s] else 0
  {
    SnapshotStore.GetSnapshotByTimeRange(db, apiKey, start, end)
  }
}
