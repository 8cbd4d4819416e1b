/** The page state of the dashboard (web/app.js): the leaderboard data, the
    selected strategy, what the detail panel shows and which key the
    five-second refresh timer is armed for. The asynchronous functions are
    split at their `await`: a click or timer tick starts a request, and its
    response arrives later as a separate event, in any order relative to
    other events. */
module WebSession {
  import opened Common
  import opened WebDashboard

  /** A JSON body: an array, or any other value. */
  datatype Payload<T> = ArrayOf(items: seq<T>) | NotArray

  /** `Array.isArray(x) ? x : []`. */
  function SafeArray<T>(p: Payload<T>): (r: seq<T>)
    ensures p.ArrayOf? ==> r == p.items
    ensures p.NotArray? ==> r == []
  {
    match p
    case ArrayOf(items) => items
    case NotArray => []
  }

  /** The detail panel. `Detail(header, sections)`: the stats block shows
      `header`'s figures and the positions/orders/trades/chart sections show
      `sections`' data. */
  datatype Panel = Blank | Loading | LoadFailed | Detail(header: string, sections: string)

  datatype State = State(
    data: seq<Row>,
    current: Option<Row>,
    panel: Panel,
    timer: Option<string>,
    pendingSelects: multiset<string>,
    pendingRefreshes: multiset<string>)

  function Initial(): State
  {
    State([], None, Blank, None, multiset{}, multiset{})
  }

  /** `leaderboardData.find(s => s.apiKey === apiKey)`. */
  function Find(data: seq<Row>, apiKey: string): (r: Option<Row>)
    ensures r.None? <==> forall i :: 0 <= i < |data| ==> data[i].apiKey != apiKey
    ensures r.Some? ==> r.value in data && r.value.apiKey == apiKey
  {
    if |data| == 0 then None
    else if data[0].apiKey == apiKey then Some(data[0])
    else Find(data[1..], apiKey)
  }

  /** How a detail fetch ended: a network or parse failure, a stats body
      carrying `error`, or the six payloads. */
  datatype DetailOutcome = FetchFailed | StatsError | Loaded

  datatype Event =
    | LeaderboardArrived(rows: Option<seq<Row>>)  // none: the fetch failed or was not ok
    | Click(apiKey: string)
    | SelectDone(apiKey: string, outcome: DetailOutcome)
    | Tick
    | RefreshDone(apiKey: string, ok: bool)

  /** `loadLeaderboard`: a failed load leaves the data as it was. */
  function LoadLeaderboard(s: State, rows: Option<seq<Row>>): (r: State)
    ensures rows.None? ==> r == s
    ensures rows.Some? ==> r == s.(data := rows.value)
  {
    match rows
    case None => s
    case Some(rs) => s.(data := rs)
  }

  /** `selectStrategy` up to its `await`: the selection becomes the row with
      that key (and is cleared, with the panel left as it is, when there is
      none); otherwise the panel shows the spinner and the fetch starts. */
  function SelectStart(s: State, apiKey: string): (r: State)
    ensures r.current == Find(s.data, apiKey)
    ensures r.current.None? ==> r == s.(current := None)
    ensures r.current.Some? ==> r == s.(current := r.current, panel := Loading,
                                         pendingSelects := s.pendingSelects + multiset{apiKey})
  {
    match Find(s.data, apiKey)
    case None => s.(current := None)
    case Some(row) => s.(current := Some(row), panel := Loading, pendingSelects := s.pendingSelects + multiset{apiKey})
  }

  /** `refreshDetail`'s guard: it does nothing unless the selection's key is
      the one it was called with. */
  function RefreshGuard(s: State, apiKey: string): (r: bool)
    ensures r <==> s.current.Some? && s.current.value.apiKey == apiKey
  {
    s.current.Some? && s.current.value.apiKey == apiKey
  }

  /** A timer tick: `refreshDetail(timerKey)` starts a refresh only past the
      guard. */
  function OnTick(s: State): (r: State)
    ensures s.timer.None? || !RefreshGuard(s, s.timer.value) ==> r == s
    ensures s.timer.Some? && RefreshGuard(s, s.timer.value) ==>
              r == s.(pendingRefreshes := s.pendingRefreshes + multiset{s.timer.value})
  {
    if s.timer.Some? && RefreshGuard(s, s.timer.value) then
      s.(pendingRefreshes := s.pendingRefreshes + multiset{s.timer.value})
    else s
  }

  /** The end of `selectStrategy` AS WRITTEN: the response is applied
      whatever has been selected in the meantime. */
  function SelectFinish(s: State, apiKey: string, outcome: DetailOutcome): (r: State)
    requires apiKey in s.pendingSelects
    ensures r.data == s.data && r.current == s.current
    ensures r.pendingSelects == s.pendingSelects - multiset{apiKey}
    ensures outcome == Loaded ==> r.panel == Detail(apiKey, apiKey) && r.timer == Some(apiKey)
    ensures outcome != Loaded ==> r.panel == LoadFailed && r.timer == s.timer
  {
    var s' := s.(pendingSelects := s.pendingSelects - multiset{apiKey});
    match outcome
    case Loaded => s'.(panel := Detail(apiKey, apiKey), timer := Some(apiKey))
    case _ => s'.(panel := LoadFailed)
  }

  /** The end of `refreshDetail` AS WRITTEN: the dynamic sections, when the
      panel has them, are overwritten with `apiKey`'s data, whatever has been
      selected in the meantime; a failed refresh changes nothing on screen. */
  function RefreshFinish(s: State, apiKey: string, ok: bool): (r: State)
    requires apiKey in s.pendingRefreshes
    ensures r.pendingRefreshes == s.pendingRefreshes - multiset{apiKey}
    ensures ok && s.panel.Detail? ==> r.panel == s.panel.(sections := apiKey)
    ensures !(ok && s.panel.Detail?) ==> r.panel == s.panel
    ensures r.(panel := s.panel, pendingRefreshes := s.pendingRefreshes) == s
  {
    var s' := s.(pendingRefreshes := s.pendingRefreshes - multiset{apiKey});
    if ok && s.panel.Detail? then s'.(panel := s.panel.(sections := apiKey)) else s'
  }

  /** One event, as written. A response with no request in flight is not a
      possible event and changes nothing. */
  function Step(s: State, e: Event): State
  {
    match e
    case LeaderboardArrived(rows) => LoadLeaderboard(s, rows)
    case Click(k) => SelectStart(s, k)
    case SelectDone(k, outcome) => if k in s.pendingSelects then SelectFinish(s, k, outcome) else s
    case Tick => OnTick(s)
    case RefreshDone(k, ok) => if k in s.pendingRefreshes then RefreshFinish(s, k, ok) else s
  }

  function Run(s: State, es: seq<Event>): State
    decreases |es|
  {
    if |es| == 0 then s else Run(Step(s, es[0]), es[1..])
  }

  /** What the panel should satisfy: whenever it shows a strategy and a
      strategy is selected, it shows the selected one, in both its parts,
      and the refresh timer is armed for it. */
  predicate Consistent(s: State)
  {
    s.panel.Detail? && s.current.Some? ==>
      && s.panel.header == s.current.value.apiKey
      && s.panel.sections == s.current.value.apiKey
      && s.timer == Some(s.current.value.apiKey)
  }

  function RowFor(apiKey: string): Row
  {
    Row(apiKey, None, None, None, WebFormat.Undefined, WebFormat.Undefined, WebFormat.Undefined)
  }

  /** As written, a slow response for an earlier click wins: select A, then
      B; B's details arrive, then A's. The panel now shows A while B is
      selected, the timer is armed for A, and A's ticks are all stopped by
      the refresh guard, so the panel never catches up. */
  lemma StaleSelectResponse()
    ensures var a := RowFor("A");
      var b := RowFor("B");
      var s0 := Initial().(data := [a, b]);
      var s := Run(s0, [Click("A"), Click("B"), SelectDone("B", Loaded), SelectDone("A", Loaded)]);
      && s.current == Some(b)
      && s.panel == Detail("A", "A")
      && s.timer == Some("A")
      && !Consistent(s)
      && OnTick(s) == s
  {
    var a := RowFor("A");
    var b := RowFor("B");
    var s0 := Initial().(data := [a, b]);
    var s1 := Step(s0, Click("A"));
    assert s1.current == Some(a);
    var s2 := Step(s1, Click("B"));
    assert Find(s1.data, "B") == Some(b);
    assert s2.current == Some(b);
    assert s2.pendingSelects == multiset{"A", "B"};
    var s3 := Step(s2, SelectDone("B", Loaded));
    assert s3.pendingSelects == multiset{"A"};
    var s4 := Step(s3, SelectDone("A", Loaded));
    assert s4.panel == Detail("A", "A");
    assert Run(s0, [Click("A"), Click("B"), SelectDone("B", Loaded), SelectDone("A", Loaded)]) == s4 by {
      assert [Click("A"), Click("B"), SelectDone("B", Loaded), SelectDone("A", Loaded)][1..]
          == [Click("B"), SelectDone("B", Loaded), SelectDone("A", Loaded)];
      assert [Click("B"), SelectDone("B", Loaded), SelectDone("A", Loaded)][1..]
          == [SelectDone("B", Loaded), SelectDone("A", Loaded)];
      assert [SelectDone("B", Loaded), SelectDone("A", Loaded)][1..] == [SelectDone("A", Loaded)];
    }
  }

  /** As written, a refresh still in flight when the selection changes also
      wins: A is shown and a tick starts A's refresh; the user selects B and
      B's details arrive; then A's refresh returns and `refreshDetail`, which
      checked the selection only before its `await`, writes A's positions,
      orders, trades and chart under B's header. */
  lemma StaleRefreshResponse()
    ensures var a := RowFor("A");
      var b := RowFor("B");
      var s0 := Initial().(data := [a, b]);
      var s := Run(s0, [Click("A"), SelectDone("A", Loaded), Tick, Click("B"), SelectDone("B", Loaded),
                        RefreshDone("A", true)]);
      && s.current == Some(b)
      && s.panel == Detail("B", "A")
      && s.timer == Some("B")
      && !Consistent(s)
  {
    var a := RowFor("A");
    var b := RowFor("B");
    var s0 := Initial().(data := [a, b]);
    var s1 := Step(s0, Click("A"));
    assert s1.current == Some(a) && s1.pendingSelects == multiset{"A"};
    var s2 := Step(s1, SelectDone("A", Loaded));
    assert s2.panel == Detail("A", "A") && s2.timer == Some("A");
    var s3 := Step(s2, Tick);
    assert s3.pendingRefreshes == multiset{"A"};
    var s4 := Step(s3, Click("B"));
    assert Find(s3.data, "B") == Some(b);
    assert s4.current == Some(b) && s4.pendingSelects == multiset{"B"};
    var s5 := Step(s4, SelectDone("B", Loaded));
    assert s5.panel == Detail("B", "B") && s5.timer == Some("B");
    var s6 := Step(s5, RefreshDone("A", true));
    assert s6.panel == Detail("B", "A");
    var es := [Click("A"), SelectDone("A", Loaded), Tick, Click("B"), SelectDone("B", Loaded), RefreshDone("A", true)];
    assert Run(s0, es) == s6 by {
      assert es[1..] == [SelectDone("A", Loaded), Tick, Click("B"), SelectDone("B", Loaded), RefreshDone("A", true)];
      assert es[1..][1..] == [Tick, Click("B"), SelectDone("B", Loaded), RefreshDone("A", true)];
      assert es[1..][1..][1..] == [Click("B"), SelectDone("B", Loaded), RefreshDone("A", true)];
      assert es[1..][1..][1..][1..] == [SelectDone("B", Loaded), RefreshDone("A", true)];
      assert es[1..][1..][1..][1..][1..] == [RefreshDone("A", true)];
    }
  }

  /** The end of `selectStrategy` with the check `refreshDetail` already
      makes on entry: a response for a key that is no longer selected is
      dropped. */
  function SelectFinishChecked(s: State, apiKey: string, outcome: DetailOutcome): (r: State)
    requires apiKey in s.pendingSelects
    ensures !RefreshGuard(s, apiKey) ==> r == s.(pendingSelects := s.pendingSelects - multiset{apiKey})
    ensures RefreshGuard(s, apiKey) ==> r == SelectFinish(s, apiKey, outcome)
  {
    if RefreshGuard(s, apiKey) then SelectFinish(s, apiKey, outcome)
    else s.(pendingSelects := s.pendingSelects - multiset{apiKey})
  }

  /** The end of `refreshDetail` with the same check repeated after the
      `await`. */
  function RefreshFinishChecked(s: State, apiKey: string, ok: bool): (r: State)
    requires apiKey in s.pendingRefreshes
    ensures !RefreshGuard(s, apiKey) ==> r == s.(pendingRefreshes := s.pendingRefreshes - multiset{apiKey})
    ensures RefreshGuard(s, apiKey) ==> r == RefreshFinish(s, apiKey, ok)
  {
    if RefreshGuard(s, apiKey) then RefreshFinish(s, apiKey, ok)
    else s.(pendingRefreshes := s.pendingRefreshes - multiset{apiKey})
  }

  /** One event with the checked response handlers. */
  function StepChecked(s: State, e: Event): State
  {
    match e
    case LeaderboardArrived(rows) => LoadLeaderboard(s, rows)
    case Click(k) => SelectStart(s, k)
    case SelectDone(k, outcome) => if k in s.pendingSelects then SelectFinishChecked(s, k, outcome) else s
    case Tick => OnTick(s)
    case RefreshDone(k, ok) => if k in s.pendingRefreshes then RefreshFinishChecked(s, k, ok) else s
  }

  function RunChecked(s: State, es: seq<Event>): State
    decreases |es|
  {
    if |es| == 0 then s else RunChecked(StepChecked(s, es[0]), es[1..])
  }

  /** With the checks, every event keeps the panel consistent with the
      selection. */
  lemma StepCheckedConsistent(s: State, e: Event)
    requires Consistent(s)
    ensures Consistent(StepChecked(s, e))
  {
  }

  /** ... and so does every run of events from the initial page. */
  lemma {:induction false} RunCheckedConsistent(s: State, es: seq<Event>)
    requires Consistent(s)
    ensures Consistent(RunChecked(s, es))
    decreases |es|
  {
    if |es| > 0 {
      StepCheckedConsistent(s, es[0]);
      RunCheckedConsistent(StepChecked(s, es[0]), es[1..]);
    }
  }

  /** On the page as it starts, every checked run stays consistent. */
  lemma InitialRunsConsistent(es: seq<Event>)
    ensures Consistent(RunChecked(Initial(), es))
  {
    RunCheckedConsistent(Initial(), es);
  }
}
