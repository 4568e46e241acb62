/** Relative due dates and durations of pkg/timefmt/timefmt.go. A
    `time.Duration` is a count of nanoseconds and a `time.Time` an instant in
    nanoseconds since Go's zero time, both as unbounded integers. Results are
    kept as values (which branch, which number, which unit) and rendered to
    bytes by `DurString` and `DueString`. */
module TimeFmt {
  import opened Text
  import opened Strconv

  const Second: int := 1_000_000_000
  const Minute: int := 60 * Second
  const Hour: int := 60 * Minute
  const Day: int := 24 * Hour

  /** Go's integer division, which truncates toward zero (Dafny's `/` is
      Euclidean). `int(d.Seconds())` and its siblings truncate in the same way. */
  function TruncDiv(a: int, b: int): (q: int)
    requires b > 0
    ensures 0 <= a ==> 0 <= q && 0 <= a - q * b < b
    ensures a < 0 ==> q <= 0 && -b < a - q * b <= 0
  {
    if a >= 0 then a / b else -((-a) / b)
  }

  datatype Unit = Seconds | Minutes | Hours | Days

  /** A printed duration: `value` followed by the unit letter. */
  datatype Span = Span(value: int, unit: Unit)

  /** `Dur`: the largest unit below which `d` does not fall (seconds below a
      minute, minutes below an hour, hours below a day, days otherwise), and
      `d` truncated to whole units of it. */
  function Dur(d: int): (r: Span)
    ensures r.unit == Seconds <==> d < Minute
    ensures r.unit == Minutes <==> Minute <= d < Hour
    ensures r.unit == Hours <==> Hour <= d < Day
    ensures r.unit == Days <==> Day <= d
    ensures r.unit == Seconds ==> r.value == TruncDiv(d, Second)
    ensures r.unit == Minutes ==> r.value == d / Minute
    ensures r.unit == Hours ==> r.value == d / Hour
    ensures r.unit == Days ==> r.value == d / Day
  {
    if d < Minute then Span(TruncDiv(d, Second), Seconds)
    else if d < Hour then Span(TruncDiv(d, Minute), Minutes)
    else if d < Day then Span(TruncDiv(d, Hour), Hours)
    else Span(TruncDiv(d, Day), Days)
  }

  /** For a non-negative duration each unit shows a value in its natural
      range: 0 to 59 seconds, 1 to 59 minutes, 1 to 23 hours, at least one day. */
  lemma DurRanges(d: int)
    requires d >= 0
    ensures var r := Dur(d);
            && (r.unit == Seconds ==> 0 <= r.value <= 59)
            && (r.unit == Minutes ==> 1 <= r.value <= 59)
            && (r.unit == Hours ==> 1 <= r.value <= 23)
            && (r.unit == Days ==> 1 <= r.value)
  {
    var r := Dur(d);
    if r.unit == Seconds {
      assert r.value * Second <= d < Minute;
    } else if r.unit == Minutes {
      assert Minute <= d < Hour;
      assert r.value * Minute <= d < (r.value + 1) * Minute;
    } else if r.unit == Hours {
      assert r.value * Hour <= d < (r.value + 1) * Hour;
    } else {
      assert d < (r.value + 1) * Day;
    }
  }

  /** The unit letter of a printed duration. */
  function UnitSuffix(u: Unit): byte {
    match u
    case Seconds => 's' as byte
    case Minutes => 'm' as byte
    case Hours => 'h' as byte
    case Days => 'd' as byte
  }

  /** `fmt.Sprintf("%ds", ...)` and its siblings. */
  function DurString(s: Span): (r: Bytes)
    ensures |r| >= 2 && r[|r| - 1] == UnitSuffix(s.unit)
    ensures r[..|r| - 1] == FormatInt(s.value)
  {
    FormatInt(s.value) + [UnitSuffix(s.unit)]
  }

  /** What `Due` prints. */
  datatype DueText =
    | DueInAMoment          // "due in a moment"
    | DueNow                // "due now"
    | OverdueBy(span: Span) // "Over due by <span>"
    | DueIn(span: Span)     // "due in <span>"

  /** `Due(now, due)`, with `d` the signed distance from `now` to `due`. */
  function Due(now: int, due: int): (r: DueText)
    ensures var d := due - now;
            && (r.DueInAMoment? <==> 0 < d < Minute)
            && (r.DueNow? <==> -60 * Second < d < 0)
            && (r.OverdueBy? <==> d <= -60 * Second)
            && (r.DueIn? <==> d == 0 || Minute <= d)
    ensures r.OverdueBy? ==> r.span == Dur(now - due)
    ensures r.DueIn? ==> r.span == Dur(due - now)
  {
    var d := due - now;
    if d > 0 && d < Minute then DueInAMoment
    else if d > -60 * Second && d < 0 then DueNow
    else if d < 0 then OverdueBy(Dur(-d))
    else DueIn(Dur(d))
  }

  /** An overdue date is at least a minute late, so it is never shown in
      seconds. */
  lemma OverdueNeverInSeconds(now: int, due: int)
    requires Due(now, due).OverdueBy?
    ensures Due(now, due).span.unit != Seconds && Due(now, due).span.value >= 1
  {
    DurRanges(now - due);
  }

  /** "due in" with seconds happens only for a date that is exactly now, and
      then reads "due in 0s". */
  lemma DueInSecondsOnlyAtNow(now: int, due: int)
    requires Due(now, due).DueIn? && Due(now, due).span.unit == Seconds
    ensures due == now && Due(now, due) == DueIn(Span(0, Seconds))
  {
  }

  lemma DueAtNow(now: int)
    ensures Due(now, now) == DueIn(Span(0, Seconds))
  {
  }

  /** The text of a `DueText`, as `Due` formats it: every text but the overdue
      one starts with "due", and a text that shows a span ends with it. */
  function DueString(t: DueText): (r: Bytes)
    ensures !t.OverdueBy? ==> |r| > 3 && r[..3] == Ascii("due")
    ensures t.OverdueBy? ==> |r| > 12 && r[..12] == Ascii("Over due by ")
    ensures t.OverdueBy? || t.DueIn? ==>
              |DurString(t.span)| < |r| && r[|r| - |DurString(t.span)|..] == DurString(t.span)
  {
    match t
    case DueInAMoment => Ascii("due in a moment")
    case DueNow => Ascii("due now")
    case OverdueBy(s) => Ascii("Over due by ") + DurString(s)
    case DueIn(s) => Ascii("due in ") + DurString(s)
  }

  /** The zero `time.Time`. */
  const ZeroTime: int := 0

  /** `DateTimeStr`: empty for the zero time, otherwise the instant laid out
      by `format` (Go's `tm.Format("2006-01-02T15:04")`, left abstract; it
      never yields an empty string). */
  function DateTimeStr(tm: int, format: int -> Bytes): (r: Bytes)
    requires forall t :: format(t) != []
    ensures r == [] <==> tm == ZeroTime
    ensures tm != ZeroTime ==> r == format(tm)
  {
    if tm == ZeroTime then [] else format(tm)
  }
}
