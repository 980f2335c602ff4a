/**
 * The playback dialog: the date and the From/To times the user picks, the
 * checks the OK button applies before any playback starts, the From-change
 * helper that proposes a To time, and the date/time strings that go into a
 * playback request.
 *
 * Instants are whole minutes on one local-time scale. The form's times are
 * whole minutes, so comparing them with `new Date()` in milliseconds gives the
 * same answers as comparing them with the current minute rounded down
 * (`WholeMinuteComparison`).
 */
module PlaybackWindow {
  import opened Maybe

  const MsPerMinute := 60000
  const MinutesPerDay := 1440

  /** A whole minute is after a millisecond instant exactly when it is after that instant's minute. */
  lemma WholeMinuteComparison(minute: int, nowMs: int)
    ensures minute * MsPerMinute > nowMs <==> minute > nowMs / MsPerMinute
  {
  }

  /** A calendar date as a date input holds it (`yyyy-mm-dd`). */
  datatype CivilDate = CivilDate(year: int, month: int, day: int)

  /** A time of day as a time input holds it (`hh:mm`). */
  datatype ClockTime = ClockTime(hour: int, minute: int)

  predicate IsLeapYear(y: int) {
    y % 4 == 0 && (y % 100 != 0 || y % 400 == 0)
  }

  function DaysInMonth(y: int, m: int): int
    requires 1 <= m <= 12
  {
    if m == 2 then (if IsLeapYear(y) then 29 else 28)
    else if m == 4 || m == 6 || m == 9 || m == 11 then 30
    else 31
  }

  /** A date a date input can hold with a four-digit year. */
  predicate ValidDate(d: CivilDate) {
    1 <= d.year <= 9999 && 1 <= d.month <= 12 && 1 <= d.day <= DaysInMonth(d.year, d.month)
  }

  predicate ValidTime(t: ClockTime) {
    0 <= t.hour < 24 && 0 <= t.minute < 60
  }

  /** Days from 1970-01-01 to `d` in the proleptic Gregorian calendar. */
  function DayNumber(d: CivilDate): int {
    var y := if d.month <= 2 then d.year - 1 else d.year;
    var era := y / 400;
    var yoe := y - era * 400;
    var mp := if d.month > 2 then d.month - 3 else d.month + 9;
    var doy := (153 * mp + 2) / 5 + d.day - 1;
    var doe := yoe * 365 + yoe / 4 - yoe / 100 + doy;
    era * 146097 + doe - 719468
  }

  function MinuteOfDay(t: ClockTime): int {
    t.hour * 60 + t.minute
  }

  /** `new Date(date + 'T' + time + ':00')`, in minutes on the local scale. */
  function LocalInstant(d: CivilDate, t: ClockTime): int {
    DayNumber(d) * MinutesPerDay + MinuteOfDay(t)
  }

  /** The wall-clock hours and minutes of an instant (`getHours()`, `getMinutes()`). */
  function ClockOf(instant: int): (c: ClockTime)
    ensures ValidTime(c)
    ensures MinuteOfDay(c) == instant % MinutesPerDay
  {
    var m := instant % MinutesPerDay;
    ClockTime(m / 60, m % 60)
  }

  /** The three fields of the dialog; None is an empty field. */
  datatype PlaybackForm = PlaybackForm(date: Option<CivilDate>, from: Option<ClockTime>, to: Option<ClockTime>)

  /** What the browser's date and time inputs can hold: each field empty or a valid value. */
  predicate WellFormedForm(form: PlaybackForm) {
    && (form.date.Some? ==> ValidDate(form.date.value))
    && (form.from.Some? ==> ValidTime(form.from.value))
    && (form.to.Some? ==> ValidTime(form.to.value))
  }

  /** A window the OK button accepted. */
  datatype Window = Window(date: CivilDate, from: ClockTime, to: ClockTime)

  predicate ValidWindow(w: Window) {
    ValidDate(w.date) && ValidTime(w.from) && ValidTime(w.to)
  }

  /** Why the OK button refuses, in the order it checks. */
  datatype WindowError = MissingField | FromInFuture | ToInFuture | ToBeforeFrom

  /** All three fields are filled in. */
  predicate Complete(form: PlaybackForm) {
    form.date.Some? && form.from.Some? && form.to.Some?
  }

  function FromInstant(form: PlaybackForm): int
    requires form.date.Some? && form.from.Some?
  {
    LocalInstant(form.date.value, form.from.value)
  }

  function ToInstant(form: PlaybackForm): int
    requires form.date.Some? && form.to.Some?
  {
    LocalInstant(form.date.value, form.to.value)
  }

  /**
   * The OK button's checks: every field filled in, From not after now, To not
   * after now, To not before From. A window is accepted exactly when all four
   * hold, and the first check that fails names the refusal.
   */
  function CheckWindow(form: PlaybackForm, now: int): (r: Result<Window, WindowError>)
    ensures r.Ok? <==> Complete(form) && FromInstant(form) <= now && ToInstant(form) <= now
                       && FromInstant(form) <= ToInstant(form)
    ensures r.Ok? ==> r.value == Window(form.date.value, form.from.value, form.to.value)
    ensures r.Ok? && WellFormedForm(form) ==> ValidWindow(r.value)
    ensures r == Err(MissingField) <==> !Complete(form)
    ensures r == Err(FromInFuture) <==> Complete(form) && FromInstant(form) > now
    ensures r == Err(ToInFuture) <==> Complete(form) && FromInstant(form) <= now && ToInstant(form) > now
  {
    if !Complete(form) then Err(MissingField)
    else if FromInstant(form) > now then Err(FromInFuture)
    else if ToInstant(form) > now then Err(ToInFuture)
    else if ToInstant(form) < FromInstant(form) then Err(ToBeforeFrom)
    else Ok(Window(form.date.value, form.from.value, form.to.value))
  }

  /** The To time the From-change helper proposes: five minutes after From, but not past now. */
  function ProposedTo(form: PlaybackForm, now: int): (t: int)
    requires form.date.Some? && form.from.Some?
    ensures t <= now && t <= FromInstant(form) + 5
    ensures t == now || t == FromInstant(form) + 5
    ensures FromInstant(form) <= now ==> FromInstant(form) <= t
  {
    var fiveLater := FromInstant(form) + 5;
    if fiveLater > now then now else fiveLater
  }

  /**
   * The From field's change handler. An empty From changes nothing. A From in
   * the future is cleared. Otherwise To is set to the wall-clock time of
   * `ProposedTo`. With the date empty the instant is invalid, its hours and
   * minutes read `NaN:NaN`, and the time input clears To.
   */
  function FromChanged(form: PlaybackForm, now: int): (r: PlaybackForm)
    ensures r.date == form.date
    ensures r.from == form.from || r.from == None
    ensures r.from == None ==> r.to == form.to
    ensures r.to != form.to ==> r.to == None || ValidTime(r.to.value)
    ensures WellFormedForm(form) ==> WellFormedForm(r)
  {
    if form.from.None? then form
    else if form.date.None? then form.(to := None)
    else if FromInstant(form) > now then form.(from := None)
    else form.(to := Some(ClockOf(ProposedTo(form, now))))
  }

  /**
   * When From is not in the future and the proposed To falls on the chosen
   * date, To becomes `min(From + 5 minutes, now)`, From stays, and the OK
   * button accepts the resulting window.
   */
  lemma FromChangeProposesAcceptedWindow(form: PlaybackForm, now: int)
    requires form.date.Some? && form.from.Some? && ValidTime(form.from.value)
    requires FromInstant(form) <= now
    requires ProposedTo(form, now) < (DayNumber(form.date.value) + 1) * MinutesPerDay
    ensures var r := FromChanged(form, now);
      r.from == form.from && r.to.Some? && ToInstant(r) == ProposedTo(form, now) && CheckWindow(r, now).Ok?
  {
    var d, p := DayNumber(form.date.value), ProposedTo(form, now);
    assert d * MinutesPerDay <= p;
    DayRemainder(d, p - d * MinutesPerDay);
  }

  /** An instant `r` minutes into day `d` has wall-clock minute `r`. */
  lemma DayRemainder(d: int, r: int)
    requires 0 <= r < MinutesPerDay
    ensures (d * MinutesPerDay + r) % MinutesPerDay == r
  {
  }

  /** A From in the future is cleared, To is left alone, and OK then reports a missing field. */
  lemma FutureFromIsCleared(form: PlaybackForm, now: int)
    requires form.date.Some? && form.from.Some? && FromInstant(form) > now
    ensures FromChanged(form, now) == form.(from := None)
    ensures CheckWindow(FromChanged(form, now), now) == Err(MissingField)
  {
  }

  /**
   * When the proposed To falls past the end of the chosen date (From within
   * five minutes of midnight, and now past midnight too), it wraps to the
   * small hours of the same date, so the window the helper proposes is
   * refused as To before From.
   */
  lemma FromChangeWrapsPastMidnight(form: PlaybackForm, now: int)
    requires form.date.Some? && form.from.Some? && ValidTime(form.from.value)
    requires FromInstant(form) <= now
    requires ProposedTo(form, now) >= (DayNumber(form.date.value) + 1) * MinutesPerDay
    ensures var r := FromChanged(form, now);
      r.from == form.from && r.to.Some?
      && MinuteOfDay(r.to.value) == ProposedTo(form, now) % MinutesPerDay
      && MinuteOfDay(r.to.value) == ProposedTo(form, now) - (DayNumber(form.date.value) + 1) * MinutesPerDay
      && MinuteOfDay(r.to.value) < MinuteOfDay(form.from.value)
      && CheckWindow(r, now) == Err(ToBeforeFrom)
  {
    var d, p := DayNumber(form.date.value), ProposedTo(form, now);
    var m := p - (d + 1) * MinutesPerDay;
    assert p == (d + 1) * MinutesPerDay + m;
    DayRemainder(d + 1, m);
  }

  // ---- The strings a playback request is built from ----

  function Digit(n: int): char
    requires 0 <= n < 10
  {
    "0123456789"[n]
  }

  /** `String(n).padStart(2, '0')` */
  function Pad2(n: int): (s: string)
    requires 0 <= n < 100
    ensures |s| == 2 && '-' !in s && ':' !in s
  {
    [Digit(n / 10), Digit(n % 10)]
  }

  function Pad4(n: int): (s: string)
    requires 0 <= n < 10000
    ensures |s| == 4 && '-' !in s && ':' !in s
  {
    Pad2(n / 100) + Pad2(n % 100)
  }

  /** The date input's value, `yyyy-mm-dd`. */
  function DateValue(d: CivilDate): (s: string)
    requires ValidDate(d)
    ensures |s| == 10
  {
    Pad4(d.year) + "-" + Pad2(d.month) + "-" + Pad2(d.day)
  }

  /** A time input's value, `hh:mm`. */
  function TimeValue(t: ClockTime): (s: string)
    requires ValidTime(t)
    ensures |s| == 5
  {
    Pad2(t.hour) + ":" + Pad2(t.minute)
  }

  /** `s.replace(/c/g, '')` for a single character `c`. */
  function RemoveAll(s: string, c: char): (r: string)
    ensures c !in r
  {
    if s == [] then []
    else (if s[0] == c then [] else [s[0]]) + RemoveAll(s[1..], c)
  }

  lemma {:induction false} RemoveAllConcat(a: string, b: string, c: char)
    ensures RemoveAll(a + b, c) == RemoveAll(a, c) + RemoveAll(b, c)
  {
    if a == [] {
      assert a + b == b;
    } else {
      assert (a + b)[0] == a[0] && (a + b)[1..] == a[1..] + b;
      RemoveAllConcat(a[1..], b, c);
    }
  }

  lemma {:induction false} RemoveAllAbsent(s: string, c: char)
    requires c !in s
    ensures RemoveAll(s, c) == s
  {
    if s != [] {
      RemoveAllAbsent(s[1..], c);
    }
  }

  /** `dt.replace(/-/g, '')`: `yyyymmdd`. */
  function CompactDate(d: CivilDate): string
    requires ValidDate(d)
  {
    RemoveAll(DateValue(d), '-')
  }

  /** `t.replace(/:/g, '') + '00'`: `hhmmss`. */
  function CompactTime(t: ClockTime): string
    requires ValidTime(t)
  {
    RemoveAll(TimeValue(t), ':') + "00"
  }

  /** `s.substring(a, b)` for `0 <= a <= b`: indices past the end stop at the end. */
  function Substring(s: string, a: nat, b: nat): string
    requires a <= b
  {
    var lo := if a < |s| then a else |s|;
    var hi := if b < |s| then b else |s|;
    s[lo..hi]
  }

  /** The request's `yyyy-mm-ddThh:mm:00` rebuilt from the compact date and time. */
  function IsoLocal(dtFmt: string, hms: string): string {
    Substring(dtFmt, 0, 4) + "-" + Substring(dtFmt, 4, 6) + "-" + Substring(dtFmt, 6, 8) + "T"
      + Substring(hms, 0, 2) + ":" + Substring(hms, 2, 4) + ":00"
  }

  /** Removing `c` after a `c`-free prefix and one `c` leaves the prefix and what removing `c` leaves of the rest. */
  lemma RemoveAfterPrefix(a: string, b: string, c: char)
    requires c !in a
    ensures RemoveAll(a + [c] + b, c) == a + RemoveAll(b, c)
  {
    var cb := [c] + b;
    assert a + [c] + b == a + cb;
    assert cb[0] == c && cb[1..] == b;
    assert RemoveAll(cb, c) == RemoveAll(b, c);
    RemoveAllConcat(a, cb, c);
    RemoveAllAbsent(a, c);
  }

  /** The compact date keeps the digits of the date value in order. */
  lemma CompactDateDigits(d: CivilDate)
    requires ValidDate(d)
    ensures CompactDate(d) == Pad4(d.year) + Pad2(d.month) + Pad2(d.day)
  {
    var y, m, dd := Pad4(d.year), Pad2(d.month), Pad2(d.day);
    var md := m + "-" + dd;
    assert DateValue(d) == y + "-" + md;
    RemoveAfterPrefix(y, md, '-');
    RemoveAfterPrefix(m, dd, '-');
    RemoveAllAbsent(dd, '-');
  }

  /** The compact time keeps the digits of the time value and appends zero seconds. */
  lemma CompactTimeDigits(t: ClockTime)
    requires ValidTime(t)
    ensures CompactTime(t) == Pad2(t.hour) + Pad2(t.minute) + "00"
  {
    var h, m := Pad2(t.hour), Pad2(t.minute);
    assert TimeValue(t) == h + ":" + m;
    RemoveAfterPrefix(h, m, ':');
    RemoveAllAbsent(m, ':');
  }

  /**
   * The start and end times sent with a playback request name the same
   * wall-clock moments the OK button checked: rebuilding them from the compact
   * strings gives back `date + 'T' + time + ':00'`.
   */
  lemma IsoLocalRoundTrip(d: CivilDate, t: ClockTime)
    requires ValidDate(d) && ValidTime(t)
    ensures IsoLocal(CompactDate(d), CompactTime(t)) == DateValue(d) + "T" + TimeValue(t) + ":00"
  {
    CompactDateDigits(d);
    CompactTimeDigits(t);
    var dt, hms := CompactDate(d), CompactTime(t);
    assert Substring(dt, 0, 4) == Pad4(d.year);
    assert Substring(dt, 4, 6) == Pad2(d.month);
    assert Substring(dt, 6, 8) == Pad2(d.day);
    assert Substring(hms, 0, 2) == Pad2(t.hour);
    assert Substring(hms, 2, 4) == Pad2(t.minute);
  }
}
