/** The key/value `config` table and its typed accessors
    (internal/config/config.go). */
module Config {
  import opened Common
  import opened Seqs
  import JsonStrings

  /** The `config` table: `key TEXT PRIMARY KEY`, `value TEXT`. */
  type Table = map<string, string>

  /** Why a read fails: no row (`sql.ErrNoRows`), a failing statement, or
      a stored value that is not a JSON list of strings. */
  datatype ConfigError = NoRows | Failed | Malformed

  /** `Get`: `SELECT value FROM config WHERE key = ?`. */
  function Get(t: Table, key: string, fault: bool): (r: Result<string, ConfigError>)
    ensures r.Ok? <==> !fault && key in t
    ensures r.Ok? ==> r.value == t[key]
    ensures r == Err(NoRows) <==> !fault && key !in t
  {
    if fault then Err(Failed)
    else if key in t then Ok(t[key])
    else Err(NoRows)
  }

  /** `Set`: `INSERT OR REPLACE`, so a prior value is replaced. */
  function Set(t: Table, key: string, value: string, fault: bool): (r: Result<Table, ConfigError>)
    ensures r.Ok? <==> !fault
    ensures r.Ok? ==> r.value.Keys == t.Keys + {key}
    ensures r.Ok? ==> r.value[key] == value
    ensures r.Ok? ==> forall k :: k in t && k != key ==> r.value[k] == t[k]
  {
    if fault then Err(Failed) else Ok(t[key := value])
  }

  /** `Set(k, v)` then `Get(k)` reads `v`; other keys read as before. */
  lemma SetThenGet(t: Table, key: string, value: string, other: string)
    ensures Get(Set(t, key, value, false).value, key, false) == Ok(value)
    ensures other != key ==> Get(Set(t, key, value, false).value, other, false) == Get(t, other, false)
  {
  }

  /** `GetStringSlice`: the stored value decoded as a JSON list of
      strings. */
  function GetStringSlice(t: Table, key: string, fault: bool): (r: Result<seq<string>, ConfigError>)
    ensures Get(t, key, fault).Err? ==> r == Err(Get(t, key, fault).error)
    ensures r == Err(Malformed) <==> !fault && key in t && JsonStrings.Decode(t[key]).None?
    ensures r.Ok? ==> JsonStrings.Decode(t[key]) == Some(r.value)
  {
    match Get(t, key, fault)
    case Err(e) => Err(e)
    case Ok(v) =>
      match JsonStrings.Decode(v)
      case None => Err(Malformed)
      case Some(xs) => Ok(xs)
  }

  /** `SetStringSlice`: the list stored as its JSON text. */
  function SetStringSlice(t: Table, key: string, xs: seq<string>, fault: bool): (r: Result<Table, ConfigError>)
    ensures r.Ok? <==> !fault
    ensures r.Ok? ==> r.value.Keys == t.Keys + {key}
    ensures r.Ok? ==> r.value[key] == JsonStrings.Encode(xs)
    ensures r.Ok? ==> forall k :: k in t && k != key ==> r.value[k] == t[k]
  {
    Set(t, key, JsonStrings.Encode(xs), fault)
  }

  /** `SetStringSlice(k, xs)` then `GetStringSlice(k)` reads `xs`. */
  lemma StringSliceRoundTrip(t: Table, key: string, xs: seq<string>)
    ensures GetStringSlice(SetStringSlice(t, key, xs, false).value, key, false) == Ok(xs)
  {
    JsonStrings.DecodeEncode(xs);
  }

  const DefaultSymbolsText: string := "[\"BTCUSDT\",\"ETHUSDT\"]"

  /** The defaults `InitDefaults` installs. */
  const Defaults: map<string, string> := map[
    "supported_symbols" := DefaultSymbolsText,
    "max_leverage" := "125",
    "default_leverage" := "10",
    "maintenance_margin_rate" := "0.005",
    "trade_fee_maker" := "0.0002",
    "trade_fee_taker" := "0.0005",
    "binance_ws_url" := "wss://stream.binance.com:9443/ws",
    "max_orders_per_api_key" := "100",
    "order_expire_hours" := "168"
  ]

  /** The default symbol list is the JSON text of BTCUSDT and ETHUSDT. */
  lemma DefaultSymbols()
    ensures JsonStrings.Decode(DefaultSymbolsText) == Some(["BTCUSDT", "ETHUSDT"])
  {
    DecodesTo("BTCUSDT", "ETHUSDT");
  }

  lemma DecodesTo(a: string, b: string)
    requires a == "BTCUSDT" && b == "ETHUSDT"
    ensures JsonStrings.Decode(DefaultSymbolsText) == Some([a, b])
  {
    EncodesTo(a, b);
    JsonStrings.DecodeEncode([a, b]);
  }

  lemma EncodesTo(a: string, b: string)
    requires a == "BTCUSDT" && b == "ETHUSDT"
    ensures JsonStrings.Encode([a, b]) == DefaultSymbolsText
  {
    var text := "[" + "\"" + a + "\"" + "," + "\"" + b + "\"" + "]";
    assert text == DefaultSymbolsText;
    JsonStrings.EncodePair(a, b);
  }

  /** Go visits a map in an unspecified order: `order` is that order, each
      default key exactly once. */
  predicate IsVisitOrder(order: seq<string>)
  {
    Distinct(order) && (forall k :: k in order ==> k in Defaults) && (forall k :: k in Defaults ==> k in order)
  }

  /** The result of `InitDefaults`: the table after it, and whether it
      returned nil. Sets made before a failing one stay in the table. */
  datatype InitResult = InitResult(table: Table, ok: bool)

  /** A key is written when reading it fails for any reason: because it has
      no row, or because the read itself fails. */
  predicate Writes(t: Table, key: string, getFails: set<string>)
  {
    key in getFails || key !in t
  }

  /** The loop of `InitDefaults` over `keys`. */
  function InitKeys(t: Table, keys: seq<string>, getFails: set<string>, setFails: set<string>): (r: InitResult)
    requires forall k :: k in keys ==> k in Defaults
    decreases |keys|
  {
    if |keys| == 0 then InitResult(t, true)
    else
      var k := keys[0];
      match Get(t, k, k in getFails)
      case Ok(_) => InitKeys(t, keys[1..], getFails, setFails)
      case Err(_) =>
        match Set(t, k, Defaults[k], k in setFails)
        case Err(_) => InitResult(t, false)
        case Ok(t') => InitKeys(t', keys[1..], getFails, setFails)
  }

  /** `InitDefaults`. */
  function InitDefaults(t: Table, order: seq<string>, getFails: set<string>, setFails: set<string>): (r: InitResult)
    requires IsVisitOrder(order)
  {
    InitKeys(t, order, getFails, setFails)
  }

  /** The loop writes only default keys, and only those it has to; it never
      touches a key whose value it could read. */
  lemma {:induction false} InitKeysFrame(t: Table, keys: seq<string>, getFails: set<string>, setFails: set<string>)
    requires forall k :: k in keys ==> k in Defaults
    requires Distinct(keys)
    ensures var r := InitKeys(t, keys, getFails, setFails);
      && t.Keys <= r.table.Keys
      && (forall k :: k in r.table && (k !in t || r.table[k] != t[k]) ==>
            k in keys && Writes(t, k, getFails) && r.table[k] == Defaults[k])
      && (r.ok <==> forall k :: k in keys && Writes(t, k, getFails) ==> k !in setFails)
      && (r.ok ==> forall k :: k in keys && Writes(t, k, getFails) ==> k in r.table && r.table[k] == Defaults[k])
    decreases |keys|
  {
    if |keys| > 0 {
      var k := keys[0];
      assert forall j :: j in keys[1..] ==> j != k by {
        forall j | j in keys[1..] ensures j != k {
          var i :| 0 <= i < |keys[1..]| && keys[1..][i] == j;
          assert keys[i + 1] == j;
        }
      }
      assert Distinct(keys[1..]);
      assert forall j :: j in keys <==> j == k || j in keys[1..];
      if Writes(t, k, getFails) {
        if k !in setFails {
          var t' := t[k := Defaults[k]];
          InitKeysFrame(t', keys[1..], getFails, setFails);
          assert forall j :: j in keys[1..] ==> (Writes(t', j, getFails) <==> Writes(t, j, getFails));
        }
      } else {
        InitKeysFrame(t, keys[1..], getFails, setFails);
      }
    }
  }

  /** `InitDefaults` never overwrites a key whose value it can read, and
      leaves every non-default key alone; it returns nil exactly when no
      write it needed fails, and then every default key is present, the
      missing ones with their default values. */
  lemma InitDefaultsSpec(t: Table, order: seq<string>, getFails: set<string>, setFails: set<string>)
    requires IsVisitOrder(order)
    ensures var r := InitDefaults(t, order, getFails, setFails);
      && (forall k :: k in t && k !in getFails ==> k in r.table && r.table[k] == t[k])
      && (forall k :: k !in Defaults ==> (k in r.table <==> k in t) && (k in t ==> r.table[k] == t[k]))
      && (r.ok <==> forall k :: k in Defaults && Writes(t, k, getFails) ==> k !in setFails)
      && (r.ok ==> forall k :: k in Defaults ==> k in r.table)
      && (r.ok ==> forall k :: k in Defaults && k !in t ==> r.table[k] == Defaults[k])
  {
    InitKeysFrame(t, order, getFails, setFails);
  }

  /** With no failing statements, running `InitDefaults` a second time
      changes nothing. */
  lemma InitDefaultsIdempotent(t: Table, order: seq<string>, order2: seq<string>)
    requires IsVisitOrder(order) && IsVisitOrder(order2)
    ensures var once := InitDefaults(t, order, {}, {}).table;
      InitDefaults(once, order2, {}, {}) == InitResult(once, true)
  {
    var once := InitDefaults(t, order, {}, {}).table;
    InitDefaultsSpec(t, order, {}, {});
    InitKeysFrame(once, order2, {}, {});
    var twice := InitDefaults(once, order2, {}, {}).table;
    assert forall k :: k in twice ==> k in once && twice[k] == once[k];
  }
}
