/** The PnL snapshot table (internal/store/snapshot_store.go). */
module SnapshotStore {
  import opened Common
  import opened Seqs
  import opened Models

  /** `CreateSnapshot`: INSERT INTO pnl_snapshots, stamped with the clock. */
  function CreateSnapshot(db: Db, apiKey: string, totalPnl: real, available: real, frozen: real,
                          now: int, fault: bool): (r: Result<Db, DbError>)
    ensures r.Ok? <==> !fault
    ensures r.Ok? ==> r.value.snapshots == db.snapshots + [Snapshot(db.nextSnapshotId, apiKey, totalPnl, available, frozen, now)]
    ensures r.Ok? ==> r.value.nextSnapshotId == db.nextSnapshotId + 1
    ensures r.Ok? ==> r.value.(snapshots := db.snapshots, nextSnapshotId := db.nextSnapshotId) == db
  {
    if fault then Err(DbError)
    else
      var row := Snapshot(db.nextSnapshotId, apiKey, totalPnl, available, frozen, now);
      Ok(db.(snapshots := db.snapshots + [row], nextSnapshotId := db.nextSnapshotId + 1))
  }

  function SnapshotAtKey(s: Snapshot): real { s.at as real }

  /** The `WHERE api_key = ?` condition. */
  function KeyedTo(apiKey: string): Snapshot -> bool
  {
    (s: Snapshot) => s.apiKey == apiKey
  }

  /** The key's rows, each as often as in the table. */
  function OfKey(snapshots: seq<Snapshot>, apiKey: string): (r: seq<Snapshot>)
    ensures forall i :: 0 <= i < |r| ==> r[i] in snapshots && r[i].apiKey == apiKey
    ensures forall s :: s in snapshots && s.apiKey == apiKey ==> s in r
    ensures forall s :: multiset(r)[s] == if s.apiKey == apiKey then multiset(snapshots)[s] else 0
  {
    var r := Filter(snapshots, KeyedTo(apiKey));
    forall s ensures multiset(r)[s] == if s.apiKey == apiKey then multiset(snapshots)[s] else 0 {
      FilterCount(snapshots, KeyedTo(apiKey), s);
    }
    r
  }

  /** `… WHERE api_key = ? ORDER BY snapshot_at DESC LIMIT ?`. A negative
      limit is SQLite's "no limit". */
  function GetSnapshotsByAPIKey(db: Db, apiKey: string, limit: int): (r: seq<Snapshot>)
    ensures forall i :: 0 <= i < |r| ==> r[i] in db.snapshots && r[i].apiKey == apiKey
    ensures forall i, j :: 0 <= i < j < |r| ==> r[i].at >= r[j].at
    ensures |r| == if 0 <= limit < |OfKey(db.snapshots, apiKey)| then limit else |OfKey(db.snapshots, apiKey)|
    ensures limit < 0 ==> forall s :: s in db.snapshots && s.apiKey == apiKey ==> s in r
    // no row is returned more often than the table holds it
    ensures forall s :: multiset(r)[s] <= if s.apiKey == apiKey then multiset(db.snapshots)[s] else 0
    // every snapshot of the key left out is no newer than any returned
    ensures forall s :: s in db.snapshots && s.apiKey == apiKey && s !in r ==>
              forall i :: 0 <= i < |r| ==> s.at <= r[i].at
  {
    var mine := OfKey(db.snapshots, apiKey);
    var sorted := SortDesc(mine, SnapshotAtKey);
    var r := Limit(sorted, limit);
    NewestPrefix(db.snapshots, apiKey, mine, sorted, r, limit);
    r
  }

  lemma NewestPrefix(snapshots: seq<Snapshot>, apiKey: string, mine: seq<Snapshot>, sorted: seq<Snapshot>,
                     r: seq<Snapshot>, limit: int)
    requires mine == OfKey(snapshots, apiKey)
    requires SortedDescBy(sorted, SnapshotAtKey) && multiset(sorted) == multiset(mine)
    requires |r| <= |sorted| && r == sorted[..|r|]
    requires limit < 0 ==> r == sorted
    ensures forall i :: 0 <= i < |r| ==> r[i] in snapshots && r[i].apiKey == apiKey
    ensures forall i, j :: 0 <= i < j < |r| ==> r[i].at >= r[j].at
    ensures limit < 0 ==> forall s :: s in snapshots && s.apiKey == apiKey ==> s in r
    ensures forall s :: multiset(r)[s] <= multiset(mine)[s]
    ensures forall s :: s in snapshots && s.apiKey == apiKey && s !in r ==>
              forall i :: 0 <= i < |r| ==> s.at <= r[i].at
  {
    PermutationMembers(sorted, mine);
    assert sorted == r + sorted[|r|..];
    assert multiset(sorted) == multiset(r) + multiset(sorted[|r|..]);
    forall s | s in snapshots && s.apiKey == apiKey && s !in r
      ensures forall i :: 0 <= i < |r| ==> s.at <= r[i].at
    {
      assert s in sorted;
      var j :| 0 <= j < |sorted| && sorted[j] == s;
      forall i | 0 <= i < |r| ensures s.at <= r[i].at {
        assert r[i] == sorted[i];
        assert SnapshotAtKey(sorted[i]) >= SnapshotAtKey(sorted[j]);
      }
    }
    forall i | 0 <= i < |r| ensures r[i] in snapshots && r[i].apiKey == apiKey {
      assert r[i] == sorted[i];
      assert sorted[i] in mine;
    }
    forall i, j | 0 <= i < j < |r| ensures r[i].at >= r[j].at {
      assert r[i] == sorted[i] && r[j] == sorted[j];
      assert SnapshotAtKey(sorted[i]) >= SnapshotAtKey(sorted[j]);
    }
  }

  /** No snapshot of `apiKey` is newer than the first one returned, and
      every snapshot the limit leaves out is no newer than the last one
      returned: the limit cuts off the OLDEST snapshots. */
  lemma NewestFirst(db: Db, apiKey: string, limit: int)
    requires limit != 0
    requires exists s :: s in db.snapshots && s.apiKey == apiKey
    ensures |GetSnapshotsByAPIKey(db, apiKey, limit)| > 0
    ensures forall s :: s in db.snapshots && s.apiKey == apiKey ==> s.at <= GetSnapshotsByAPIKey(db, apiKey, limit)[0].at
    ensures var r := GetSnapshotsByAPIKey(db, apiKey, limit);
      forall s :: s in db.snapshots && s.apiKey == apiKey && s !in r ==> s.at <= r[|r| - 1].at
  {
    var mine := OfKey(db.snapshots, apiKey);
    var s0 :| s0 in db.snapshots && s0.apiKey == apiKey;
    assert s0 in mine;
    var sorted := SortDesc(mine, SnapshotAtKey);
    PermutationMembers(sorted, mine);
    forall s | s in db.snapshots && s.apiKey == apiKey
      ensures s.at <= GetSnapshotsByAPIKey(db, apiKey, limit)[0].at
    {
      assert s in sorted;
      var j :| 0 <= j < |sorted| && sorted[j] == s;
      assert SnapshotAtKey(sorted[0]) >= SnapshotAtKey(sorted[j]);
    }
  }

  /** `GetLatestSnapshot`: `… ORDER BY snapshot_at DESC LIMIT 1` read with
      `QueryRow`; none (Go's `nil, nil`) when the key has no snapshot. */
  function GetLatestSnapshot(db: Db, apiKey: string): (r: Option<Snapshot>)
    ensures r.None? <==> forall s :: s in db.snapshots ==> s.apiKey != apiKey
    ensures r.Some? ==> r.value in db.snapshots && r.value.apiKey == apiKey
    ensures r.Some? ==> forall s :: s in db.snapshots && s.apiKey == apiKey ==> s.at <= r.value.at
    ensures r.Some? ==> r.value == GetSnapshotsByAPIKey(db, apiKey, 1)[0]
  {
    var top := GetSnapshotsByAPIKey(db, apiKey, 1);
    if |top| == 0 then None
    else
      NewestFirst(db, apiKey, 1);
      Some(top[0])
  }

  predicate InRange(s: Snapshot, apiKey: string, start: int, end: int)
  {
    s.apiKey == apiKey && start <= s.at <= end
  }

  /** The `WHERE` condition of the range query. */
  function Within(apiKey: string, start: int, end: int): Snapshot -> bool
  {
    (s: Snapshot) => InRange(s, apiKey, start, end)
  }

  /** `… WHERE api_key = ? AND snapshot_at BETWEEN ? AND ? ORDER BY
      snapshot_at ASC`: both bounds inclusive. */
  function GetSnapshotByTimeRange(db: Db, apiKey: string, start: int, end: int): (r: seq<Snapshot>)
    ensures forall i :: 0 <= i < |r| ==> r[i] in db.snapshots && r[i].apiKey == apiKey && start <= r[i].at <= end
    ensures forall s :: s in db.snapshots && s.apiKey == apiKey && start <= s.at <= end ==> s in r
    ensures forall i, j :: 0 <= i < j < |r| ==> r[i].at <= r[j].at
    ensures forall s :: multiset(r)[s] == if InRange(s, apiKey, start, end) then multiset(db.snapshots)[s] else 0
  {
    var inRange := Filter(db.snapshots, Within(apiKey, start, end));
    var r := Sort(inRange, SnapshotAtKey);
    PermutationMembers(r, inRange);
    forall i | 0 <= i < |r| ensures r[i] in db.snapshots && r[i].apiKey == apiKey && start <= r[i].at <= end {
      assert r[i] in inRange;
      FilterMembers(db.snapshots, Within(apiKey, start, end), r[i]);
    }
    forall s | s in db.snapshots && InRange(s, apiKey, start, end) ensures s in r {
      FilterMembers(db.snapshots, Within(apiKey, start, end), s);
    }
    forall s ensures multiset(r)[s] == if InRange(s, apiKey, start, end) then multiset(db.snapshots)[s] else 0 {
      FilterCount(db.snapshots, Within(apiKey, start, end), s);
    }
    forall i, j | 0 <= i < j < |r| ensures r[i].at <= r[j].at {
      assert SnapshotAtKey(r[i]) <= SnapshotAtKey(r[j]);
    }
    r
  }

  /** Appending a snapshot for one key does not change what the reads of
      any other key return. */
  lemma CreateFrame(db: Db, apiKey: string, totalPnl: real, available: real, frozen: real, now: int,
                    other: string, limit: int)
    requires other != apiKey
    ensures GetSnapshotsByAPIKey(CreateSnapshot(db, apiKey, totalPnl, available, frozen, now, false).value, other, limit)
         == GetSnapshotsByAPIKey(db, other, limit)
  {
    var db' := CreateSnapshot(db, apiKey, totalPnl, available, frozen, now, false).value;
    var row := Snapshot(db.nextSnapshotId, apiKey, totalPnl, available, frozen, now);
    FilterAppend(db.snapshots, [row], KeyedTo(other));
    assert OfKey(db'.snapshots, other) == OfKey(db.snapshots, other);
  }
}
