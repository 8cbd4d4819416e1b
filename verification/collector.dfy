/** The pure parts of the Binance aggTrade collector
    (internal/collector/collector.go): the subscription path, the filter and
    bounded hand-off in the read loop, and the latest-trade map kept by the
    dispatch loop. The websocket, the goroutines and the locks are not part
    of this model; a received frame is given as an already-decoded message. */
module Collector {
  import opened Common
  import opened Seqs
  import opened Text

  /** One aggTrade frame; prices and quantities stay the strings Binance
      sends. */
  datatype AggTrade = AggTrade(
    eventType: string,
    eventTime: int,
    symbol: string,
    tradeId: int,
    price: string,
    quantity: string,
    firstTrade: int,
    lastTrade: int,
    tradeTime: int,
    isBuyerMaker: bool)

  /** A websocket frame after `json.Unmarshal`: either it did not decode, or
      it decoded to a trade record. */
  datatype Message = Undecodable | Decoded(trade: AggTrade)

  /** Handlers are opaque callbacks; the model names them by an id. */
  type HandlerId = nat

  /** A handler call started by the dispatch loop (`go handler(trade)`). */
  datatype Delivery = Delivery(handler: HandlerId, trade: AggTrade)

  /** The buffer size of the trades channel. */
  const QueueCapacity: nat := 1000

  datatype Collector = Collector(
    wsUrl: string,
    symbols: seq<string>,
    queue: seq<AggTrade>,
    handlers: seq<HandlerId>,
    latest: map<string, AggTrade>)

  /** The queue never holds more than the channel's buffer. */
  predicate Valid(c: Collector)
  {
    |c.queue| <= QueueCapacity
  }

  /** `New`: an empty channel, no handlers and no latest trades. */
  function New(wsUrl: string, symbols: seq<string>): (r: Collector)
    ensures Valid(r)
    ensures r.wsUrl == wsUrl && r.symbols == symbols
    ensures |r.queue| == 0 && |r.handlers| == 0 && |r.latest| == 0
  {
    Collector(wsUrl, symbols, [], [], map[])
  }

  // ---------------------------------------------------------------------
  // The subscription path built by `connect`

  /** One stream name: the lower-cased symbol followed by "@aggTrade". */
  function StreamName(symbol: string): string
  {
    ToLower(symbol) + "@aggTrade"
  }

  /** The stream names joined with '/'; "" when there are no symbols. */
  function Streams(symbols: seq<string>): string
  {
    Join(Map(symbols, StreamName), '/')
  }

  /** The dialled URL: `wsURL + "/" + streams`. */
  function StreamUrl(c: Collector): string
  {
    c.wsUrl + "/" + Streams(c.symbols)
  }

  lemma StreamNameNoSlash(symbol: string)
    requires '/' !in symbol
    ensures '/' !in StreamName(symbol)
  {
    var low := ToLower(symbol);
    forall i | 0 <= i < |low| ensures low[i] != '/' {
      assert symbol[i] in symbol;
    }
    assert StreamName(symbol) == low + "@aggTrade";
  }

  /** The URL is the base URL, one '/', and then exactly one lower-case
      "<symbol>@aggTrade" segment per symbol, in order: splitting the tail on
      '/' gives the stream names back, so there is no leading, trailing or
      doubled separator. With no symbols the tail is empty. */
  lemma StreamUrlSegments(c: Collector)
    requires forall i :: 0 <= i < |c.symbols| ==> '/' !in c.symbols[i]
    ensures var url := StreamUrl(c);
      && |url| > |c.wsUrl|
      && url[..|c.wsUrl| + 1] == c.wsUrl + "/"
      && (|c.symbols| == 0 ==> url == c.wsUrl + "/")
      && (|c.symbols| > 0 ==>
            && Split(url[|c.wsUrl| + 1..], '/') == Map(c.symbols, StreamName)
            && forall i :: 0 <= i < |c.symbols| ==>
                 var seg := Split(url[|c.wsUrl| + 1..], '/')[i];
                 && |seg| == |c.symbols[i]| + 9
                 && seg[..|c.symbols[i]|] == ToLower(c.symbols[i])
                 && seg[|c.symbols[i]|..] == "@aggTrade")
  {
    var url := StreamUrl(c);
    var names := Map(c.symbols, StreamName);
    assert url[|c.wsUrl| + 1..] == Streams(c.symbols);
    if |c.symbols| > 0 {
      forall i | 0 <= i < |names| ensures '/' !in names[i] {
        StreamNameNoSlash(c.symbols[i]);
      }
      SplitJoin(names, '/');
    }
  }

  // ---------------------------------------------------------------------
  // The read loop

  /** One iteration of `readLoop` on a received frame: a frame that does not
      decode, or whose event type is not "aggTrade", is skipped; an aggTrade
      goes into the channel when there is room and is dropped (without
      blocking) when the channel is full. */
  function OnMessage(c: Collector, m: Message): (r: Collector)
    requires Valid(c)
    ensures Valid(r)
    ensures r.(queue := c.queue) == c
    ensures (m.Undecodable? || m.trade.eventType != "aggTrade") ==> r == c
    ensures m.Decoded? && m.trade.eventType == "aggTrade" && |c.queue| < QueueCapacity ==>
              r.queue == c.queue + [m.trade]
    ensures |c.queue| == QueueCapacity ==> r == c
  {
    match m
    case Undecodable => c
    case Decoded(t) =>
      if t.eventType == "aggTrade" then
        if |c.queue| < QueueCapacity then c.(queue := c.queue + [t]) else c
      else c
  }

  /** The frames the read loop would enqueue if the channel never filled:
      the decoded aggTrades, in arrival order. */
  function Accepted(ms: seq<Message>): (r: seq<AggTrade>)
    ensures |r| <= |ms|
    ensures forall i :: 0 <= i < |r| ==> r[i].eventType == "aggTrade"
  {
    if |ms| == 0 then []
    else
      var rest := Accepted(ms[1..]);
      if ms[0].Decoded? && ms[0].trade.eventType == "aggTrade" then [ms[0].trade] + rest else rest
  }

  /** The read loop over a run of frames with no dispatch in between. */
  function ReadAll(c: Collector, ms: seq<Message>): (r: Collector)
    requires Valid(c)
    ensures Valid(r)
    ensures r.(queue := c.queue) == c
    decreases |ms|
  {
    if |ms| == 0 then c else ReadAll(OnMessage(c, ms[0]), ms[1..])
  }

  /** The first `n` elements of `s`, or all of `s` when it is shorter. */
  function Take<T>(s: seq<T>, n: nat): seq<T>
  {
    if |s| <= n then s else s[..n]
  }

  /** Drop-when-full means the channel keeps the EARLIEST trades: after a run
      of frames it holds the old contents followed by the accepted trades, cut
      at the capacity. */
  lemma {:induction false} ReadAllQueue(c: Collector, ms: seq<Message>)
    requires Valid(c)
    ensures ReadAll(c, ms).queue == Take(c.queue + Accepted(ms), QueueCapacity)
    decreases |ms|
  {
    if |ms| > 0 {
      var c1 := OnMessage(c, ms[0]);
      ReadAllQueue(c1, ms[1..]);
      var rest := Accepted(ms[1..]);
      if ms[0].Decoded? && ms[0].trade.eventType == "aggTrade" {
        assert Accepted(ms) == [ms[0].trade] + rest;
        if |c.queue| < QueueCapacity {
          assert c1.queue + rest == c.queue + Accepted(ms);
        } else {
          assert c.queue + Accepted(ms) == c.queue + [ms[0].trade] + rest;
          assert Take(c.queue + Accepted(ms), QueueCapacity) == c.queue;
          assert Take(c1.queue + rest, QueueCapacity) == c.queue;
        }
      } else {
        assert Accepted(ms) == rest;
      }
    } else {
      assert c.queue + Accepted(ms) == c.queue;
    }
  }

  // ---------------------------------------------------------------------
  // The dispatch loop

  /** One iteration of `dispatchLoop`: take the oldest trade, record it as
      its symbol's latest trade, and start every handler on it. An empty
      channel gives none (the loop blocks). */
  function Dispatch(c: Collector): (r: Option<(Collector, seq<Delivery>)>)
    ensures r.None? <==> |c.queue| == 0
    ensures r.Some? ==> var (c', ds) := r.value;
      && c'.queue == c.queue[1..]
      && c'.(queue := c.queue, latest := c.latest) == c
      && c'.latest.Keys == c.latest.Keys + {c.queue[0].symbol}
      && c'.latest[c.queue[0].symbol] == c.queue[0]
      && (forall s :: s in c.latest && s != c.queue[0].symbol ==> c'.latest[s] == c.latest[s])
      && |ds| == |c.handlers|
      && (forall i :: 0 <= i < |ds| ==> ds[i] == Delivery(c.handlers[i], c.queue[0]))
  {
    if |c.queue| == 0 then None
    else
      var t := c.queue[0];
      var ds := Map(c.handlers, (h: HandlerId) => Delivery(h, t));
      Some((c.(queue := c.queue[1..], latest := c.latest[t.symbol := t]), ds))
  }

  /** The last trade of `symbol` in `q`, if any. */
  function LastOf(q: seq<AggTrade>, symbol: string): (r: Option<AggTrade>)
    ensures r.None? <==> forall i :: 0 <= i < |q| ==> q[i].symbol != symbol
    ensures r.Some? ==> r.value in q && r.value.symbol == symbol
  {
    if |q| == 0 then None
    else if q[|q| - 1].symbol == symbol then Some(q[|q| - 1])
    else LastOf(q[..|q| - 1], symbol)
  }

  /** The dispatch loop run until the channel is empty. */
  function DispatchAll(c: Collector): (r: Collector)
    ensures |r.queue| == 0
    decreases |c.queue|
  {
    match Dispatch(c)
    case None => c
    case Some((c', _)) => DispatchAll(c')
  }

  /** After the channel drains, each symbol's latest trade is the LAST of its
      trades that were queued; a symbol with no queued trade keeps its old
      entry, or stays absent. */
  lemma {:induction false} DispatchAllLatest(c: Collector, symbol: string)
    ensures var c' := DispatchAll(c);
      && (LastOf(c.queue, symbol).Some? ==>
            symbol in c'.latest && c'.latest[symbol] == LastOf(c.queue, symbol).value)
      && (LastOf(c.queue, symbol).None? ==>
            (symbol in c'.latest <==> symbol in c.latest)
            && (symbol in c.latest ==> c'.latest[symbol] == c.latest[symbol]))
    decreases |c.queue|
  {
    if |c.queue| > 0 {
      var (c1, _) := Dispatch(c).value;
      DispatchAllLatest(c1, symbol);
      LastOfCons(c.queue, symbol);
    }
  }

  /** `LastOf` on a non-empty queue, read from its head: the tail's answer
      when the tail has one, the head otherwise. */
  lemma {:induction false} LastOfCons(q: seq<AggTrade>, symbol: string)
    requires |q| > 0
    ensures LastOf(q[1..], symbol).Some? ==> LastOf(q, symbol) == LastOf(q[1..], symbol)
    ensures LastOf(q[1..], symbol).None? && q[0].symbol == symbol ==> LastOf(q, symbol) == Some(q[0])
    ensures LastOf(q[1..], symbol).None? && q[0].symbol != symbol ==> LastOf(q, symbol).None?
    decreases |q|
  {
    if |q| > 1 {
      var last := q[|q| - 1];
      assert q[1..][|q[1..]| - 1] == last;
      if last.symbol != symbol {
        LastOfCons(q[..|q| - 1], symbol);
        assert q[..|q| - 1][1..] == q[1..][..|q[1..]| - 1];
      }
    }
  }

  // ---------------------------------------------------------------------
  // Readers and registration

  /** `GetLatestTrades`: a copy of the latest-trade map, with the same keys
      and the same trade under every key. */
  function GetLatestTrades(c: Collector): (r: map<string, AggTrade>)
    ensures r.Keys == c.latest.Keys
    ensures forall s :: s in r ==> r[s] == c.latest[s]
  {
    map s | s in c.latest :: c.latest[s]
  }

  /** `AddHandler`: appends one handler after the existing ones. */
  function AddHandler(c: Collector, h: HandlerId): (r: Collector)
    ensures |r.handlers| == |c.handlers| + 1
    ensures r.handlers[..|c.handlers|] == c.handlers && r.handlers[|c.handlers|] == h
    ensures r.(handlers := c.handlers) == c
  {
    c.(handlers := c.handlers + [h])
  }

  /** A handler added before a trade is dispatched is started on that trade,
      after every handler registered earlier. */
  lemma AddHandlerThenDispatch(c: Collector, h: HandlerId)
    requires |c.queue| > 0
    ensures var (_, ds) := Dispatch(AddHandler(c, h)).value;
      && |ds| == |c.handlers| + 1
      && ds[|c.handlers|] == Delivery(h, c.queue[0])
      && ds[..|c.handlers|] == Dispatch(c).value.1
  {
  }

  /** A frame accepted into an empty channel and then dispatched becomes its
      symbol's latest trade, as `GetLatestTrades` reports it. */
  lemma ReceiveThenLatest(c: Collector, t: AggTrade)
    requires Valid(c) && |c.queue| == 0
    requires t.eventType == "aggTrade"
    ensures var (c', _) := Dispatch(OnMessage(c, Decoded(t))).value;
      GetLatestTrades(c')[t.symbol] == t
  {
  }
}
