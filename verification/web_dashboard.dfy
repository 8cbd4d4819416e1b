/** The derived figures of the dashboard (web/app.js): the strategy detail
    metrics, the leaderboard search and ranking, the header totals and the
    PnL chart projection. Rendering into the DOM is not modelled; each
    function returns the figures the markup is built from. */
module WebDashboard {
  import opened Common
  import opened Seqs
  import opened Text
  import opened WebFormat

  // ---------------------------------------------------------------------
  // Strategy detail

  /** The fields of the `/strategy/{apiKey}` payload the detail reads. */
  datatype StatsPayload = StatsPayload(
    available: JsValue,
    frozen: JsValue,
    totalPnl: JsValue,
    roi: JsValue,
    initialBalance: JsValue)

  datatype Risk = Low | Medium | High

  datatype Metrics = Metrics(
    available: real,
    frozen: real,
    totalPnl: real,
    roi: real,
    initialBalance: real,
    equity: real,
    marginUsage: real,
    risk: Risk,
    barWidth: real)

  /** Frozen margin as a percentage of the initial balance, 0 when the
      initial balance is not positive. */
  function MarginUsage(frozen: real, initialBalance: real): (r: real)
    ensures initialBalance > 0.0 ==> r * initialBalance == frozen * 100.0
    ensures initialBalance <= 0.0 ==> r == 0.0
  {
    if initialBalance > 0.0 then frozen / initialBalance * 100.0 else 0.0
  }

  /** The risk tier: above 50% high, above 20% medium, otherwise low. */
  function RiskOf(marginUsage: real): (r: Risk)
    ensures r == High <==> marginUsage > 50.0
    ensures r == Medium <==> 20.0 < marginUsage <= 50.0
    ensures r == Low <==> marginUsage <= 20.0
  {
    if marginUsage > 50.0 then High else if marginUsage > 20.0 then Medium else Low
  }

  function RiskRank(r: Risk): nat
  {
    match r
    case Low => 0
    case Medium => 1
    case High => 2
  }

  /** More margin in use never lowers the risk tier. */
  lemma RiskMonotone(a: real, b: real)
    requires a <= b
    ensures RiskRank(RiskOf(a)) <= RiskRank(RiskOf(b))
  {
  }

  /** The metric block of `renderStrategyDetail`: every field read with
      `parseFloat(x) || 0`, equity as available plus frozen, and the risk
      bar's width capped at 100. */
  function DetailMetrics(s: StatsPayload): (r: Metrics)
    ensures r.available == OrZero(s.available) && r.frozen == OrZero(s.frozen)
    ensures r.totalPnl == OrZero(s.totalPnl) && r.roi == OrZero(s.roi)
    ensures r.initialBalance == OrZero(s.initialBalance)
    ensures r.equity == r.available + r.frozen
    ensures r.initialBalance > 0.0 ==> r.marginUsage * r.initialBalance == r.frozen * 100.0
    ensures r.initialBalance <= 0.0 ==> r.marginUsage == 0.0 && r.risk == Low
    ensures r.risk == RiskOf(r.marginUsage)
    ensures r.barWidth <= 100.0 && r.barWidth <= r.marginUsage
    ensures r.barWidth == 100.0 || r.barWidth == r.marginUsage
  {
    var available := OrZero(s.available);
    var frozen := OrZero(s.frozen);
    var initial := OrZero(s.initialBalance);
    var usage := MarginUsage(frozen, initial);
    Metrics(available, frozen, OrZero(s.totalPnl), OrZero(s.roi), initial, available + frozen,
            usage, RiskOf(usage), if usage < 100.0 then usage else 100.0)
  }

  /** With a positive initial balance, the risk is high exactly when more
      than half of it is frozen, and the bar is then more than half full. */
  lemma HighRiskIffHalfFrozen(s: StatsPayload)
    requires OrZero(s.initialBalance) > 0.0
    ensures var m := DetailMetrics(s);
      && (m.risk == High <==> m.frozen * 2.0 > m.initialBalance)
      && (m.risk == High ==> m.barWidth > 50.0)
  {
    var m := DetailMetrics(s);
    HalfOfScale(m.marginUsage, m.initialBalance, m.frozen);
  }

  lemma HalfOfScale(u: real, b: real, f: real)
    requires b > 0.0 && u * b == f * 100.0
    ensures u > 50.0 <==> f * 2.0 > b
  {
    assert u * b - 50.0 * b == (u - 50.0) * b;
    if u > 50.0 {
      assert (u - 50.0) * b > 0.0;
    } else {
      assert (50.0 - u) * b >= 0.0;
    }
  }

  // ---------------------------------------------------------------------
  // Leaderboard search and ranking

  /** A leaderboard row as the page holds it; a missing or empty name or
      description is falsy. */
  datatype Row = Row(
    apiKey: string,
    name: Option<string>,
    description: Option<string>,
    tradeCount: Option<int>,
    totalPnl: JsValue,
    roi: JsValue,
    initialBalance: JsValue)

  /** The search term: the input's text lower-cased, or '' when there is
      no input. */
  function SearchTerm(input: Option<string>): (r: string)
    ensures forall i :: 0 <= i < |r| ==> !IsUpperAscii(r[i])
  {
    match input
    case Some(text) => ToLower(text)
    case None => ""
  }

  /** `f && f.toLowerCase().includes(term)` for one optional field. */
  function FieldHas(f: Option<string>, term: string): bool
  {
    f.Some? && f.value != "" && Includes(ToLower(f.value), term)
  }

  /** The search's keep condition, as a function value for `Filter`. */
  function MatchesTerm(term: string): Row -> bool
  {
    (s: Row) => FieldHas(s.name, term) || FieldHas(s.description, term)
  }

  /** The declarative reading of a match: the term occurs in the
      lower-cased name or description. */
  ghost predicate Matches(s: Row, term: string)
  {
    || (s.name.Some? && s.name.value != "" && Occurs(ToLower(s.name.value), term))
    || (s.description.Some? && s.description.value != "" && Occurs(ToLower(s.description.value), term))
  }

  /** The filter of `renderLeaderboard`: everything for an empty term,
      otherwise exactly the rows whose name or description contains the
      term, in leaderboard order. */
  function FilterRows(data: seq<Row>, term: string): (r: seq<Row>)
    ensures term == "" ==> r == data
    ensures forall i :: 0 <= i < |r| ==> r[i] in data && (term != "" ==> Matches(r[i], term))
    ensures forall s :: s in data && Matches(s, term) ==> s in r
    ensures term != "" ==> forall s :: multiset(r)[s] == if Matches(s, term) then multiset(data)[s] else 0
  {
    if term == "" then data
    else
      var r := Filter(data, MatchesTerm(term));
      forall s | s in data && Matches(s, term) ensures s in r {
        FilterMembers(data, MatchesTerm(term), s);
      }
      forall s ensures multiset(r)[s] == if Matches(s, term) then multiset(data)[s] else 0 {
        FilterCount(data, MatchesTerm(term), s);
      }
      r
  }

  /** The filter keeps leaderboard order: one more row at the end of the
      data adds that row at the end of the result iff it matches. */
  lemma FilterRowsSnoc(data: seq<Row>, s: Row, term: string)
    ensures FilterRows(data + [s], term)
         == FilterRows(data, term) + (if term == "" || Matches(s, term) then [s] else [])
  {
    if term != "" {
      FilterSnoc(data, s, MatchesTerm(term));
    }
  }

  /** Typing more narrows the list: every row kept for a longer term that
      contains a shorter one is kept for the shorter one as well. */
  lemma NarrowingSearch(data: seq<Row>, short: string, long: string)
    requires Occurs(long, short)
    ensures forall s :: s in FilterRows(data, long) ==> s in FilterRows(data, short)
  {
    forall s | s in FilterRows(data, long) ensures s in FilterRows(data, short) {
      if long != "" {
        if s.name.Some? && s.name.value != "" && Occurs(ToLower(s.name.value), long) {
          OccursTrans(ToLower(s.name.value), long, short);
        } else {
          OccursTrans(ToLower(s.description.value), long, short);
        }
        assert Matches(s, short);
      } else {
        assert |short| == 0 by {
          var i :| OccursAt(long, short, i);
        }
      }
    }
  }

  /** One rendered leaderboard line. */
  datatype Ranked = Ranked(row: Row, rank: nat, top3: bool)

  /** What the list shows: the empty state, or the ranked lines. */
  datatype ListView = EmptyState | Lines(lines: seq<Ranked>)

  /** The ranking of `renderLeaderboard`: the rank is the position in the
      FILTERED list plus one, and ranks 1 to 3 are marked top-3. */
  function RankRows(filtered: seq<Row>): (r: ListView)
    ensures r.EmptyState? <==> |filtered| == 0
    ensures r.Lines? ==> |r.lines| == |filtered|
    ensures r.Lines? ==> forall i :: 0 <= i < |filtered| ==>
      r.lines[i].row == filtered[i] && r.lines[i].rank == i + 1 && (r.lines[i].top3 <==> i < 3)
  {
    if |filtered| == 0 then EmptyState
    else Lines(seq(|filtered|, i requires 0 <= i < |filtered| => Ranked(filtered[i], i + 1, i + 1 <= 3)))
  }

  function IsTop3(l: Ranked): bool { l.top3 }

  /** Exactly the first three lines (or all, when fewer) are marked top-3. */
  lemma Top3Count(filtered: seq<Row>)
    requires |filtered| > 0
    ensures Count(RankRows(filtered).lines, IsTop3) == if |filtered| < 3 then |filtered| else 3
  {
    var lines := RankRows(filtered).lines;
    var k := if |filtered| < 3 then |filtered| else 3;
    assert lines == lines[..k] + lines[k..];
    CountAppend(lines[..k], lines[k..], IsTop3);
    CountAll(lines[..k], IsTop3);
    CountNone(lines[k..], IsTop3);
  }

  lemma {:induction false} CountAll<T>(xs: seq<T>, p: T -> bool)
    requires forall i :: 0 <= i < |xs| ==> p(xs[i])
    ensures Count(xs, p) == |xs|
    decreases |xs|
  {
    if |xs| > 0 {
      CountAll(xs[1..], p);
      assert xs == [xs[0]] + xs[1..];
      CountAppend([xs[0]], xs[1..], p);
    }
  }

  lemma {:induction false} CountNone<T>(xs: seq<T>, p: T -> bool)
    requires forall i :: 0 <= i < |xs| ==> !p(xs[i])
    ensures Count(xs, p) == 0
    decreases |xs|
  {
    if |xs| > 0 {
      CountNone(xs[1..], p);
      assert xs == [xs[0]] + xs[1..];
      CountAppend([xs[0]], xs[1..], p);
    }
  }

  // ---------------------------------------------------------------------
  // Header totals

  function TradeCountOr0(s: Row): int
  {
    match s.tradeCount
    case Some(n) => n
    case None => 0
  }

  /** `reduce((sum, s) => sum + (s.tradeCount || 0), 0)`. */
  function TotalTrades(data: seq<Row>): int
  {
    Sum(Map(data, TradeCountOr0))
  }

  /** `updateHeaderStats`: the number of strategies and the total trade
      count, formatted with no decimals. */
  function HeaderStats(data: seq<Row>): (r: (nat, Shown))
    ensures r.0 == |data|
    ensures r.1 == FormatNumber(Number(TotalTrades(data) as real), 0)
  {
    (|data|, FormatNumber(Number(TotalTrades(data) as real), 0))
  }

  /** The total is additive over the rows: one more row adds its own count
      (a missing count adds nothing). */
  lemma TotalTradesAppend(data: seq<Row>, s: Row)
    ensures TotalTrades(data + [s]) == TotalTrades(data) + TradeCountOr0(s)
  {
    assert Map(data + [s], TradeCountOr0) == Map(data, TradeCountOr0) + [TradeCountOr0(s)];
    SumAppend(Map(data, TradeCountOr0), [TradeCountOr0(s)]);
  }

  // ---------------------------------------------------------------------
  // PnL chart

  /** One snapshot as the chart reads it: its time in milliseconds and its
      total PnL. */
  datatype Point = Point(at: int, totalPnl: JsValue)

  function AtKey(p: Point): real { p.at as real }

  function PnlOf(p: Point): real { OrZero(p.totalPnl) }

  const ChartHeight: real := 200.0
  const Padding: real := 20.0

  /** `container.clientWidth || 800`. */
  function ChartWidth(clientWidth: nat): real
  {
    if clientWidth == 0 then 800.0 else clientWidth as real
  }

  datatype Trend = Up | Down

  datatype Chart = Chart(xs: seq<real>, ys: seq<real>, trend: Trend)

  function MinOf(vs: seq<real>): (r: real)
    requires |vs| > 0
    ensures r in vs && forall i :: 0 <= i < |vs| ==> r <= vs[i]
  {
    if |vs| == 1 then vs[0]
    else
      var m := MinOf(vs[1..]);
      if vs[0] <= m then vs[0] else m
  }

  function MaxOf(vs: seq<real>): (r: real)
    requires |vs| > 0
    ensures r in vs && forall i :: 0 <= i < |vs| ==> vs[i] <= r
  {
    if |vs| == 1 then vs[0]
    else
      var m := MaxOf(vs[1..]);
      if vs[0] >= m then vs[0] else m
  }

  /** `max - min || 1`. */
  function Span(lo: real, hi: real): (r: real)
    requires lo <= hi
    ensures r > 0.0
    ensures hi > lo ==> r == hi - lo
  {
    if hi - lo == 0.0 then 1.0 else hi - lo
  }

  /** The abscissa of the `i`-th of `n` points. */
  function XOf(i: nat, n: nat, width: real): real
  {
    var steps := if n == 0 || n - 1 == 0 then 1 else n - 1;
    Padding + (i as real / steps as real) * (width - Padding * 2.0)
  }

  /** The ordinate of value `v`: the minimum sits on the bottom padding
      line, the maximum on the top one. */
  function YOf(v: real, lo: real, span: real): real
    requires span > 0.0
  {
    ChartHeight - Padding - ((v - lo) / span) * (ChartHeight - Padding * 2.0)
  }

  /** The chart of PnL values already in time order, in a drawing `width`
      wide. */
  function ChartOf(values: seq<real>, width: real): (r: Chart)
    requires |values| > 0
    ensures |r.xs| == |values| && |r.ys| == |values|
  {
    var lo := MinOf(values);
    var hi := MaxOf(values);
    var span := Span(lo, hi);
    var n := |values|;
    Chart(seq(n, i requires 0 <= i < n => XOf(i, n, width)),
          seq(n, i requires 0 <= i < n => YOf(values[i], lo, span)),
          if values[n - 1] >= values[0] then Up else Down)
  }

  /** The PnL values of the snapshots in ascending time order. */
  function ChartValues(snapshots: seq<Point>): (r: seq<real>)
    ensures |r| == |snapshots|
  {
    Map(Sort(snapshots, AtKey), PnlOf)
  }

  /** `drawPnLChart`: nothing for no snapshots; otherwise the snapshots in
      ascending time order, projected into the 200-high drawing with 20 of
      padding, and the trend 'up' when the last PnL is at least the first. */
  function Project(snapshots: seq<Point>, clientWidth: nat): (r: Option<Chart>)
    ensures r.None? <==> |snapshots| == 0
    ensures r.Some? ==> |r.value.xs| == |snapshots| && |r.value.ys| == |snapshots|
  {
    if |snapshots| == 0 then None
    else Some(ChartOf(ChartValues(snapshots), ChartWidth(clientWidth)))
  }

  /** The values are read from the snapshots sorted by time, ascending, and
      the sort keeps every snapshot. */
  lemma ChartValuesOrder(snapshots: seq<Point>)
    ensures var sorted := Sort(snapshots, AtKey);
      && multiset(sorted) == multiset(snapshots)
      && (forall i, j :: 0 <= i < j < |sorted| ==> sorted[i].at <= sorted[j].at)
      && (forall i :: 0 <= i < |sorted| ==> ChartValues(snapshots)[i] == OrZero(sorted[i].totalPnl))
  {
    var sorted := Sort(snapshots, AtKey);
    forall i, j | 0 <= i < j < |sorted| ensures sorted[i].at <= sorted[j].at {
      assert AtKey(sorted[i]) <= AtKey(sorted[j]);
    }
  }

  /** Every point lies inside the padded drawing vertically; the lowest PnL
      is drawn on the bottom line and, when the PnL varies, the highest on
      the top line; the trend is up exactly when the last PnL is not below
      the first. */
  lemma ChartVertical(values: seq<real>, width: real)
    requires |values| > 0
    ensures var c := ChartOf(values, width);
      var n := |values|;
      && (forall i :: 0 <= i < n ==> Padding <= c.ys[i] <= ChartHeight - Padding)
      && (forall i :: 0 <= i < n && values[i] == MinOf(values) ==> c.ys[i] == ChartHeight - Padding)
      && (forall i :: 0 <= i < n && values[i] == MaxOf(values) && MaxOf(values) > MinOf(values) ==> c.ys[i] == Padding)
      && (c.trend == Up <==> values[n - 1] >= values[0])
  {
    var c := ChartOf(values, width);
    var lo := MinOf(values);
    var hi := MaxOf(values);
    forall i | 0 <= i < |values|
      ensures Padding <= c.ys[i] <= ChartHeight - Padding
      ensures values[i] == lo ==> c.ys[i] == ChartHeight - Padding
      ensures values[i] == hi && hi > lo ==> c.ys[i] == Padding
    {
      assert c.ys[i] == YOf(values[i], lo, Span(lo, hi));
      YInside(values[i], lo, hi);
    }
  }

  lemma YInside(v: real, lo: real, hi: real)
    requires lo <= v <= hi
    ensures Padding <= YOf(v, lo, Span(lo, hi)) <= ChartHeight - Padding
    ensures v == lo ==> YOf(v, lo, Span(lo, hi)) == ChartHeight - Padding
    ensures v == hi && hi > lo ==> YOf(v, lo, Span(lo, hi)) == Padding
  {
    var span := Span(lo, hi);
    FractionInUnit(v, lo, hi, span);
    var f := (v - lo) / span;
    assert YOf(v, lo, span) == ChartHeight - Padding - f * (ChartHeight - Padding * 2.0);
    if v == hi && hi > lo {
      assert f == 1.0;
    }
  }

  /** In a drawing at least 40 wide, every point lies between the side
      paddings, and the points go strictly left to right. */
  lemma ChartHorizontal(values: seq<real>, width: real)
    requires |values| > 0 && width >= Padding * 2.0
    ensures var c := ChartOf(values, width);
      && (forall i :: 0 <= i < |values| ==> Padding <= c.xs[i] <= width - Padding)
      && (width > Padding * 2.0 ==> forall i, j :: 0 <= i < j < |values| ==> c.xs[i] < c.xs[j])
  {
    var c := ChartOf(values, width);
    var n := |values|;
    forall i | 0 <= i < n ensures Padding <= c.xs[i] <= width - Padding {
      assert c.xs[i] == XOf(i, n, width);
      XInside(i, n, width);
    }
    if width > Padding * 2.0 {
      forall i, j | 0 <= i < j < n ensures c.xs[i] < c.xs[j] {
        assert c.xs[i] == XOf(i, n, width) && c.xs[j] == XOf(j, n, width);
        XIncreasing(i, j, n, width);
      }
    }
  }

  lemma XIncreasing(i: nat, j: nat, n: nat, width: real)
    requires i < j < n && width > Padding * 2.0
    ensures XOf(i, n, width) < XOf(j, n, width)
  {
    var steps := (n - 1) as real;
    var w := width - Padding * 2.0;
    assert i as real / steps < j as real / steps;
    assert (i as real / steps) * w < (j as real / steps) * w;
  }

  lemma FractionInUnit(v: real, lo: real, hi: real, span: real)
    requires lo <= v <= hi && span > 0.0
    requires hi > lo ==> span == hi - lo
    ensures 0.0 <= (v - lo) / span <= 1.0
  {
    if hi == lo {
      assert v - lo == 0.0;
    } else {
      assert v - lo <= span;
    }
  }

  lemma XInside(i: nat, n: nat, width: real)
    requires i < n && width >= Padding * 2.0
    ensures Padding <= XOf(i, n, width) <= width - Padding
  {
    var steps := if n == 0 || n - 1 == 0 then 1 else n - 1;
    var f := i as real / steps as real;
    assert 0.0 <= f <= 1.0;
    var w := width - Padding * 2.0;
    assert 0.0 <= f * w <= w by {
      assert (1.0 - f) * w >= 0.0;
    }
  }
}
