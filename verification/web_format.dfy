/** The display helpers at the top of web/app.js: number, price and time
    formatting and the sign colour. JavaScript values are modelled by what
    the helpers do with them, numbers are reals, and a formatted number is
    the value passed to `toFixed` with its count of decimals and its suffix
    (the digit string itself is not modelled). */
module WebFormat {
  import opened Common

  /** A JavaScript value as the dashboard receives it. A string carries the
      result `parseFloat` gives for it (none for NaN). */
  datatype JsValue =
    | Undefined
    | Null
    | NotANumber
    | Number(n: real)
    | Text(s: string, parsed: Option<real>)

  /** `parseFloat(v)`; none stands for NaN. */
  function ParseFloat(v: JsValue): (r: Option<real>)
    ensures v.Number? ==> r == Some(v.n)
    ensures v.Text? ==> r == v.parsed
    ensures v.Undefined? || v.Null? || v.NotANumber? ==> r.None?
  {
    match v
    case Number(n) => Some(n)
    case Text(_, p) => p
    case _ => None
  }

  /** `parseFloat(v) || 0`: NaN reads as 0. */
  function OrZero(v: JsValue): (r: real)
    ensures ParseFloat(v).Some? ==> r == ParseFloat(v).value
    ensures ParseFloat(v).None? ==> r == 0.0
  {
    match ParseFloat(v)
    case Some(x) => x
    case None => 0.0
  }

  function Abs(x: real): real { if x < 0.0 then -x else x }

  /** What a formatter shows: '-', `NaN`, or `value.toFixed(decimals)`
      followed by `suffix`. */
  datatype Shown = Dash | NaNText | Fixed(value: real, decimals: nat, suffix: string)

  /** The factor a suffix stands for. */
  function SuffixScale(suffix: string): real
  {
    if suffix == "M" then 1000000.0 else if suffix == "K" then 1000.0 else 1.0
  }

  /** `formatNumber(num, decimals)`: '-' for undefined, null, the empty
      string and anything `parseFloat` rejects; millions with 'M' and
      thousands with 'K' (both to 2 decimals), smaller magnitudes to
      `decimals` places. The shown value times its suffix's factor is the
      number itself. */
  function FormatNumber(v: JsValue, decimals: nat): (r: Shown)
    ensures r.NaNText? == false
    ensures r.Dash? <==> v.Undefined? || v.Null? || (v.Text? && v.s == "") || ParseFloat(v).None?
    ensures r.Fixed? ==> r.value * SuffixScale(r.suffix) == ParseFloat(v).value
    ensures r.Fixed? ==> var n := ParseFloat(v).value;
      && (r.suffix == "M" <==> Abs(n) >= 1000000.0)
      && (r.suffix == "K" <==> 1000.0 <= Abs(n) < 1000000.0)
      && (r.suffix == "" <==> Abs(n) < 1000.0)
      && (r.suffix == "" ==> r.decimals == decimals)
      && (r.suffix != "" ==> r.decimals == 2 && 1.0 <= Abs(r.value))
      && (r.suffix == "K" ==> Abs(r.value) < 1000.0)
  {
    if v.Undefined? || v.Null? || (v.Text? && v.s == "") then Dash
    else
      match ParseFloat(v)
      case None => Dash
      case Some(n) =>
        if Abs(n) >= 1000000.0 then Fixed(n / 1000000.0, 2, "M")
        else if Abs(n) >= 1000.0 then Fixed(n / 1000.0, 2, "K")
        else Fixed(n, decimals, "")
  }

  /** `formatPrice(price)`: 2 decimals from 1000 up, 4 from 1 up, 6 below
      (including negative prices); NaN prints as `NaN`. */
  function FormatPrice(v: JsValue): (r: Shown)
    ensures r.NaNText? <==> ParseFloat(v).None?
    ensures r.Fixed? ==> var p := ParseFloat(v).value;
      && r.value == p && r.suffix == ""
      && (r.decimals == 2 <==> p >= 1000.0)
      && (r.decimals == 4 <==> 1.0 <= p < 1000.0)
      && (r.decimals == 6 <==> p < 1.0)
  {
    match ParseFloat(v)
    case None => NaNText
    case Some(p) =>
      if p >= 1000.0 then Fixed(p, 2, "")
      else if p >= 1.0 then Fixed(p, 4, "")
      else Fixed(p, 6, "")
  }

  /** A higher price never gets more decimals than a lower one. */
  lemma FormatPriceMonotone(a: real, b: real)
    requires a <= b
    ensures FormatPrice(Number(b)).decimals <= FormatPrice(Number(a)).decimals
  {
  }

  /** The input of `formatTime`: a falsy value, a text `Date` cannot read,
      or an instant in milliseconds. */
  datatype TimeInput = Falsy | InvalidTime | Instant(ms: int)

  /** What `formatTime` shows. `Absolute` is the locale date of the instant;
      an unreadable time compares false everywhere and prints as
      "Invalid Date". */
  datatype TimeShown = NoTime | JustNow | MinutesAgo(minutes: int) | HoursAgo(hours: int)
                     | Absolute(ms: int) | InvalidDate

  /** `formatTime(timeStr)` at clock `now`: '-' for a falsy input; then, in
      this order, under a minute 'just now' (a future time included), under
      an hour whole minutes ago, under a day whole hours ago, otherwise the
      date. */
  function FormatTime(t: TimeInput, now: int): (r: TimeShown)
    ensures t.Falsy? <==> r.NoTime?
    ensures t.InvalidTime? <==> r.InvalidDate?
    ensures t.Instant? ==> var diff := now - t.ms;
      && (r.JustNow? <==> diff < 60000)
      && (r.MinutesAgo? <==> 60000 <= diff < 3600000)
      && (r.HoursAgo? <==> 3600000 <= diff < 86400000)
      && (r.Absolute? <==> diff >= 86400000)
      && (r.MinutesAgo? ==> 1 <= r.minutes < 60 && r.minutes * 60000 <= diff < (r.minutes + 1) * 60000)
      && (r.HoursAgo? ==> 1 <= r.hours < 24 && r.hours * 3600000 <= diff < (r.hours + 1) * 3600000)
      && (r.Absolute? ==> r.ms == t.ms)
  {
    match t
    case Falsy => NoTime
    case InvalidTime => InvalidDate
    case Instant(ms) =>
      var diff := now - ms;
      if diff < 60000 then JustNow
      else if diff < 3600000 then MinutesAgo(diff / 60000)
      else if diff < 86400000 then HoursAgo(diff / 3600000)
      else Absolute(ms)
  }

  /** The colour class of a signed figure. */
  datatype Tone = Positive | Negative

  /** `getROIColor(roi)`: NaN reads as 0, and 0 counts as positive. */
  function RoiColor(v: JsValue): (r: Tone)
    ensures r == Positive <==> ParseFloat(v).None? || ParseFloat(v).value >= 0.0
  {
    if OrZero(v) >= 0.0 then Positive else Negative
  }
}
