/** The positions table (internal/store/position_store.go), keyed by
    (apiKey, symbol). */
module PositionStore {
  import opened Common
  import opened Seqs
  import opened Models

  predicate KeyIs(p: Position, apiKey: string, symbol: string)
  {
    p.apiKey == apiKey && p.symbol == symbol
  }

  /** `SELECT … WHERE api_key = ? AND symbol = ?` read with `QueryRow`: the
      first matching row, or none (Go's `nil, nil`) when no row exists. */
  function Get(db: Db, apiKey: string, symbol: string): (r: Option<Position>)
    ensures r.None? <==> forall i :: 0 <= i < |db.positions| ==> !KeyIs(db.positions[i], apiKey, symbol)
    ensures r.Some? ==> r.value in db.positions && KeyIs(r.value, apiKey, symbol)
  {
    Find(db.positions, apiKey, symbol)
  }

  function Find(ps: seq<Position>, apiKey: string, symbol: string): (r: Option<Position>)
    ensures r.None? <==> forall i :: 0 <= i < |ps| ==> !KeyIs(ps[i], apiKey, symbol)
    ensures r.Some? ==> r.value in ps && KeyIs(r.value, apiKey, symbol)
  {
    if |ps| == 0 then None
    else if KeyIs(ps[0], apiKey, symbol) then Some(ps[0])
    else Find(ps[1..], apiKey, symbol)
  }

  /** With the primary key in force, the row `Get` finds is the only one. */
  lemma GetUnique(db: Db, apiKey: string, symbol: string, i: int)
    requires PositionKeysUnique(db.positions)
    requires 0 <= i < |db.positions| && KeyIs(db.positions[i], apiKey, symbol)
    ensures Get(db, apiKey, symbol) == Some(db.positions[i])
  {
    var r := Get(db, apiKey, symbol);
    var j :| 0 <= j < |db.positions| && db.positions[j] == r.value;
    assert j == i;
  }

  /** `SELECT … WHERE api_key = ?`, in table order. */
  function GetByAPIKey(db: Db, apiKey: string): (r: seq<Position>)
    ensures forall i :: 0 <= i < |r| ==> r[i].apiKey == apiKey && r[i] in db.positions
    ensures forall p :: p in db.positions && p.apiKey == apiKey ==> p in r
    ensures forall p :: multiset(r)[p] == if p.apiKey == apiKey then multiset(db.positions)[p] else 0
  {
    var r := Filter(db.positions, HeldBy(apiKey));
    forall p ensures multiset(r)[p] == if p.apiKey == apiKey then multiset(db.positions)[p] else 0 {
      FilterCount(db.positions, HeldBy(apiKey), p);
    }
    r
  }

  /** The `WHERE` condition of `GetByAPIKey`. */
  function HeldBy(apiKey: string): Position -> bool
  {
    (p: Position) => p.apiKey == apiKey
  }

  /** The row list after an INSERT … ON CONFLICT(api_key, symbol) DO UPDATE:
      the row with `p`'s key is overwritten in place, or `p` is appended. */
  function Upsert(ps: seq<Position>, p: Position): (r: seq<Position>)
    ensures (exists i :: 0 <= i < |ps| && KeyIs(ps[i], p.apiKey, p.symbol)) ==> |r| == |ps|
    ensures (forall i :: 0 <= i < |ps| ==> !KeyIs(ps[i], p.apiKey, p.symbol)) ==> r == ps + [p]
    ensures p in r
    ensures forall q :: q in r && !KeyIs(q, p.apiKey, p.symbol) ==> q in ps
    ensures forall q :: q in ps && !KeyIs(q, p.apiKey, p.symbol) ==> q in r
    ensures PositionKeysUnique(ps) ==> PositionKeysUnique(r)
  {
    if |ps| == 0 then [p]
    else if KeyIs(ps[0], p.apiKey, p.symbol) then [p] + ps[1..]
    else
      var rest := Upsert(ps[1..], p);
      assert ps == [ps[0]] + ps[1..];
      UpsertHeadUnique(ps, p, rest);
      [ps[0]] + rest
  }

  lemma UpsertHeadUnique(ps: seq<Position>, p: Position, rest: seq<Position>)
    requires |ps| > 0 && !KeyIs(ps[0], p.apiKey, p.symbol)
    requires forall q :: q in rest && !KeyIs(q, p.apiKey, p.symbol) ==> q in ps[1..]
    requires PositionKeysUnique(ps) ==> PositionKeysUnique(rest)
    ensures PositionKeysUnique(ps) ==> PositionKeysUnique([ps[0]] + rest)
  {
    if PositionKeysUnique(ps) {
      forall j | 0 <= j < |rest| ensures (ps[0].apiKey, ps[0].symbol) != (rest[j].apiKey, rest[j].symbol) {
        if !KeyIs(rest[j], p.apiKey, p.symbol) {
          var k :| 0 <= k < |ps[1..]| && ps[1..][k] == rest[j];
          assert ps[k + 1] == rest[j];
        }
      }
    }
  }

  /** `Save`: upsert keyed on (apiKey, symbol). */
  function Save(db: Db, p: Position, fault: bool): (r: Result<Db, DbError>)
    ensures r.Ok? <==> !fault
    ensures r.Ok? ==> r.value.(positions := db.positions) == db
    ensures r.Ok? && PositionKeysUnique(db.positions) ==> PositionKeysUnique(r.value.positions)
  {
    if fault then Err(DbError) else Ok(db.(positions := Upsert(db.positions, p)))
  }

  /** After `Save(p)`, reading `p`'s key returns `p`: side, entry price,
      size, leverage, margin and unrealized PnL all as written. */
  lemma SaveThenGet(db: Db, p: Position)
    requires PositionKeysUnique(db.positions)
    ensures Get(Save(db, p, false).value, p.apiKey, p.symbol) == Some(p)
  {
    var db' := Save(db, p, false).value;
    var i :| 0 <= i < |db'.positions| && db'.positions[i] == p;
    GetUnique(db', p.apiKey, p.symbol, i);
  }

  /** `Save` for one pair leaves the position of every other pair as it was. */
  lemma SaveFrame(db: Db, p: Position, apiKey: string, symbol: string)
    requires PositionKeysUnique(db.positions)
    requires (apiKey, symbol) != (p.apiKey, p.symbol)
    ensures Get(Save(db, p, false).value, apiKey, symbol) == Get(db, apiKey, symbol)
  {
    var db' := Save(db, p, false).value;
    var before := Get(db, apiKey, symbol);
    var after := Get(db', apiKey, symbol);
    if before.Some? {
      assert before.value in db'.positions;
      var i :| 0 <= i < |db'.positions| && db'.positions[i] == before.value;
      GetUnique(db', apiKey, symbol, i);
    }
    if after.Some? {
      assert after.value in db.positions;
      var i :| 0 <= i < |db.positions| && db.positions[i] == after.value;
      GetUnique(db, apiKey, symbol, i);
    }
  }

  /** `DELETE FROM positions WHERE api_key = ? AND symbol = ?`. */
  function Delete(db: Db, apiKey: string, symbol: string, fault: bool): (r: Result<Db, DbError>)
    ensures r.Ok? <==> !fault
    ensures r.Ok? ==> r.value.(positions := db.positions) == db
    ensures r.Ok? ==> forall q :: q in r.value.positions <==> q in db.positions && !KeyIs(q, apiKey, symbol)
  {
    if fault then Err(DbError)
    else
      var keep := Filter(db.positions, (q: Position) => !KeyIs(q, apiKey, symbol));
      assert forall q :: q in keep <==> q in db.positions && !KeyIs(q, apiKey, symbol) by {
        forall q ensures q in keep <==> q in db.positions && !KeyIs(q, apiKey, symbol) {
          FilterMembers(db.positions, (q: Position) => !KeyIs(q, apiKey, symbol), q);
        }
      }
      Ok(db.(positions := keep))
  }

  /** After `Delete(k, s)` there is no position for (k, s), and every other
      pair reads back what it read before. */
  lemma DeleteThenGet(db: Db, apiKey: string, symbol: string, k: string, s: string)
    requires PositionKeysUnique(db.positions)
    ensures Get(Delete(db, apiKey, symbol, false).value, apiKey, symbol).None?
    ensures (k, s) != (apiKey, symbol) ==>
              Get(Delete(db, apiKey, symbol, false).value, k, s) == Get(db, k, s)
  {
    var db' := Delete(db, apiKey, symbol, false).value;
    if (k, s) != (apiKey, symbol) {
      var before := Get(db, k, s);
      var after := Get(db', k, s);
      if before.Some? {
        assert before.value in db'.positions;
        var i :| 0 <= i < |db'.positions| && db'.positions[i] == before.value;
        FilterKeepsUnique(db.positions, apiKey, symbol);
        GetUnique(db', k, s, i);
      }
      if after.Some? {
        assert after.value in db.positions;
        var i :| 0 <= i < |db.positions| && db.positions[i] == after.value;
        GetUnique(db, k, s, i);
      }
    }
  }

  lemma {:induction false} FilterKeepsUnique(ps: seq<Position>, apiKey: string, symbol: string)
    requires PositionKeysUnique(ps)
    ensures PositionKeysUnique(Filter(ps, (q: Position) => !KeyIs(q, apiKey, symbol)))
    decreases |ps|
  {
    if |ps| > 0 {
      var p := (q: Position) => !KeyIs(q, apiKey, symbol);
      assert PositionKeysUnique(ps[1..]);
      FilterKeepsUnique(ps[1..], apiKey, symbol);
      var rest := Filter(ps[1..], p);
      forall i | 0 <= i < |rest| ensures (rest[i].apiKey, rest[i].symbol) != (ps[0].apiKey, ps[0].symbol) {
        var j :| 0 <= j < |ps[1..]| && ps[1..][j] == rest[i];
        assert ps[j + 1] == rest[i];
      }
    }
  }
}
