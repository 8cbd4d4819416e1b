/** The synthetic order book of internal/api/orderbook.go: a last-price map
    per symbol and a ten-level depth snapshot drawn around that price. The
    random draws are inputs (`math/rand`'s `Float64`, each in [0, 1)), and a
    formatted number is its rounded value together with its count of
    decimals. */
module Orderbook {

  /** The text `%.{places}f` of `value`, where `value` is already rounded
      to `places` decimals. */
  datatype Decimal = Decimal(value: real, places: nat)

  datatype Level = Level(price: Decimal, quantity: Decimal)

  datatype Snapshot = Snapshot(symbol: string, lastUpdateId: int, bids: seq<Level>, asks: seq<Level>)

  /** symbol -> last price. */
  type Prices = map<string, real>

  /** The base price of a symbol with no recorded price. */
  const DefaultPrice: real := 67000.0

  /** Levels per side. */
  const Depth: nat := 10

  /** `NewOrderbook`: BTCUSDT at 67000 and ETHUSDT at 3500. */
  function NewOrderbook(): (r: Prices)
    ensures r.Keys == {"BTCUSDT", "ETHUSDT"}
    ensures r["BTCUSDT"] == 67000.0 && r["ETHUSDT"] == 3500.0
  {
    map["BTCUSDT" := 67000.0, "ETHUSDT" := 3500.0]
  }

  /** The price a snapshot is drawn around: the recorded price, or 67000. */
  function BasePrice(prices: Prices, symbol: string): (r: real)
    ensures symbol in prices ==> r == prices[symbol]
    ensures symbol !in prices ==> r == DefaultPrice
  {
    if symbol in prices then prices[symbol] else DefaultPrice
  }

  /** `UpdatePrice`: records `price` for `symbol`. */
  function UpdatePrice(prices: Prices, symbol: string, price: real): (r: Prices)
    ensures r.Keys == prices.Keys + {symbol}
    ensures r[symbol] == price
    ensures forall s :: s in prices && s != symbol ==> r[s] == prices[s]
  {
    prices[symbol := price]
  }

  /** After `UpdatePrice(s, p)`, snapshots of `s` are drawn around `p` and
      every other symbol keeps its base price. */
  lemma UpdateThenBase(prices: Prices, symbol: string, price: real, other: string)
    ensures BasePrice(UpdatePrice(prices, symbol, price), symbol) == price
    ensures other != symbol ==> BasePrice(UpdatePrice(prices, symbol, price), other) == BasePrice(prices, other)
  {
  }

  // ---------------------------------------------------------------------
  // Rounding and formatting

  function Pow10(n: nat): (r: real)
    ensures r >= 1.0
  {
    if n == 0 then 1.0 else 10.0 * Pow10(n - 1)
  }

  /** `math.Round`: to the nearest integer, halves away from zero. */
  function Round(x: real): (r: int)
    ensures x - 0.5 <= r as real <= x + 0.5
    ensures x >= 0.0 ==> r >= 0
    // a half rounds away from zero: up for a positive x, down for a negative one
    ensures r as real - x == 0.5 ==> x >= 0.0
    ensures x - r as real == 0.5 ==> x < 0.0
  {
    if x >= 0.0 then (x + 0.5).Floor else -((-x + 0.5).Floor)
  }

  /** `formatWithPrecision`'s rounding: `math.Round(val * p) / p` with
      `p = 10^places`. */
  function RoundTo(x: real, places: nat): (r: real)
    ensures x - 0.5 / Pow10(places) <= r <= x + 0.5 / Pow10(places)
  {
    var p := Pow10(places);
    var k := Round(x * p);
    DivBounds(x * p, k as real, p);
    k as real / p
  }

  lemma DivBounds(y: real, k: real, p: real)
    requires p >= 1.0 && y - 0.5 <= k <= y + 0.5
    ensures y / p - 0.5 / p <= k / p <= y / p + 0.5 / p
  {
    assert (y - 0.5) / p <= k / p;
    assert k / p <= (y + 0.5) / p;
  }

  /** `formatPrice`: 2 decimals from 1000 up, 4 below. */
  function FormatPrice(price: real): (r: Decimal)
    ensures price >= 1000.0 ==> r.places == 2 && price - 0.005 <= r.value <= price + 0.005
    ensures price < 1000.0 ==> r.places == 4 && price - 0.00005 <= r.value <= price + 0.00005
  {
    var places := if price >= 1000.0 then 2 else 4;
    assert Pow10(2) == 100.0 && Pow10(4) == 10000.0;
    Decimal(RoundTo(price, places), places)
  }

  /** `formatQuantity`: always 4 decimals. */
  function FormatQuantity(qty: real): (r: Decimal)
    ensures r.places == 4 && qty - 0.00005 <= r.value <= qty + 0.00005
  {
    assert Pow10(4) == 10000.0;
    Decimal(RoundTo(qty, 4), 4)
  }

  // ---------------------------------------------------------------------
  // The depth snapshot

  /** Level `i`'s distance from the base: `(i+1) * base * 0.0001 * (0.5 + d)`. */
  function Offset(base: real, i: nat, d: real): real
  {
    (i + 1) as real * base * 0.0001 * (0.5 + d)
  }

  function LevelQuantity(d: real): real
  {
    0.1 + d * 2.0
  }

  function BidLevel(base: real, i: nat, dPrice: real, dQty: real): Level
  {
    Level(FormatPrice(base - Offset(base, i, dPrice)), FormatQuantity(LevelQuantity(dQty)))
  }

  function AskLevel(base: real, i: nat, dPrice: real, dQty: real): Level
  {
    Level(FormatPrice(base + Offset(base, i, dPrice)), FormatQuantity(LevelQuantity(dQty)))
  }

  /** The draws are values of `Float64`. */
  predicate DrawsValid(draws: seq<real>)
  {
    forall i :: 0 <= i < |draws| ==> 0.0 <= draws[i] < 1.0
  }

  /** `GetSnapshot`: ten bids, then ten asks, each level taking one draw for
      its price offset and then one for its quantity, in that order; the
      update id is the clock. */
  function GetSnapshot(prices: Prices, symbol: string, draws: seq<real>, now: int): (r: Snapshot)
    requires |draws| == 4 * Depth
    ensures r.symbol == symbol && r.lastUpdateId == now
    ensures |r.bids| == Depth && |r.asks| == Depth
    ensures forall i :: 0 <= i < Depth ==>
      && r.bids[i] == BidLevel(BasePrice(prices, symbol), i, draws[2 * i], draws[2 * i + 1])
      && r.asks[i] == AskLevel(BasePrice(prices, symbol), i, draws[2 * Depth + 2 * i], draws[2 * Depth + 2 * i + 1])
  {
    var base := BasePrice(prices, symbol);
    var bids := seq(Depth, i requires 0 <= i < Depth => BidLevel(base, i, draws[2 * i], draws[2 * i + 1]));
    var asks := seq(Depth, i requires 0 <= i < Depth =>
                      AskLevel(base, i, draws[2 * Depth + 2 * i], draws[2 * Depth + 2 * i + 1]));
    Snapshot(symbol, now, bids, asks)
  }

  /** Before formatting, every bid lies strictly below a positive base and
      every ask strictly above it, both within 0.15% of it. */
  lemma OffsetBounds(base: real, i: nat, d: real)
    requires base > 0.0 && i < Depth && 0.0 <= d < 1.0
    ensures base * 0.00005 <= Offset(base, i, d) < base * 0.0015
  {
    var k := (i + 1) as real;
    assert 1.0 <= k <= 10.0;
    assert Offset(base, i, d) == base * (k * 0.0001 * (0.5 + d));
    var e := 0.5 + d;
    assert 0.5 <= e < 1.5;
    assert k * e <= 10.0 * e by { assert (10.0 - k) * e >= 0.0; }
    assert k * e >= e by { assert (k - 1.0) * e >= 0.0; }
    assert k * 0.0001 * e == (k * e) * 0.0001;
    assert 0.00005 <= k * 0.0001 * e < 0.0015;
  }

  /** The quantity of every level is in [0.1, 2.1] after formatting. */
  lemma QuantityBounds(d: real)
    requires 0.0 <= d < 1.0
    ensures 0.1 <= LevelQuantity(d) < 2.1
    ensures 0.1 <= FormatQuantity(LevelQuantity(d)).value <= 2.1
  {
    var q := LevelQuantity(d);
    var k := Round(q * Pow10(4));
    assert Pow10(4) == 10000.0;
    assert 1000.0 <= q * 10000.0 < 21000.0;
    assert 1000 <= k <= 21000;
  }

  /** For a base above 1, the FORMATTED bids are all below the base and the
      formatted asks all above it; every level has 4-decimal quantity in
      [0.1, 2.1]. */
  lemma SnapshotSides(prices: Prices, symbol: string, draws: seq<real>, now: int)
    requires |draws| == 4 * Depth && DrawsValid(draws)
    requires BasePrice(prices, symbol) > 1.0
    ensures var r := GetSnapshot(prices, symbol, draws, now);
      var base := BasePrice(prices, symbol);
      forall i :: 0 <= i < Depth ==>
        && r.bids[i].price.value < base < r.asks[i].price.value
        && 0.1 <= r.bids[i].quantity.value <= 2.1 && 0.1 <= r.asks[i].quantity.value <= 2.1
  {
    var r := GetSnapshot(prices, symbol, draws, now);
    var base := BasePrice(prices, symbol);
    forall i | 0 <= i < Depth
      ensures r.bids[i].price.value < base < r.asks[i].price.value
      ensures 0.1 <= r.bids[i].quantity.value <= 2.1 && 0.1 <= r.asks[i].quantity.value <= 2.1
    {
      BidBelow(base, i, draws[2 * i]);
      AskAbove(base, i, draws[2 * Depth + 2 * i]);
      QuantityBounds(draws[2 * i + 1]);
      QuantityBounds(draws[2 * Depth + 2 * i + 1]);
    }
  }

  lemma BidBelow(base: real, i: nat, d: real)
    requires base > 1.0 && i < Depth && 0.0 <= d < 1.0
    ensures FormatPrice(base - Offset(base, i, d)).value < base
  {
    OffsetBounds(base, i, d);
    var raw := base - Offset(base, i, d);
    if raw >= 1000.0 {
      assert base * 0.00005 > 0.005;
    }
  }

  lemma AskAbove(base: real, i: nat, d: real)
    requires base > 1.0 && i < Depth && 0.0 <= d < 1.0
    ensures FormatPrice(base + Offset(base, i, d)).value > base
  {
    OffsetBounds(base, i, d);
    var raw := base + Offset(base, i, d);
    if raw >= 1000.0 {
      assert base * 1.0015 > 1000.0;
      assert base * 0.00005 > 0.005;
    }
  }

  /** Below a base of 1 the rounding to 4 decimals can swallow the offset:
      around 0.5 with a zero draw, the first bid prints as 0.5000, the base
      itself. */
  lemma SmallBaseBidMeetsBase()
    ensures FormatPrice(0.5 - Offset(0.5, 0, 0.0)).value == 0.5
  {
    assert Offset(0.5, 0, 0.0) == 0.000025;
    assert Pow10(4) == 10000.0;
    assert (0.5 - 0.000025) * 10000.0 == 4999.75;
    assert Round(4999.75) == 5000;
  }
}
