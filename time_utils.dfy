/** src/utils/timeUtils.js: `formatTime`, which turns a PostgreSQL TIME text
    ("HH:MM:SS") or a Date into the 12-hour display "h:mm AM|PM". */
module TimeUtils {
  import opened Js

  type Hour = h: int | 0 <= h < 24
  type Minute = m: int | 0 <= m < 60
  type Second = s: int | 0 <= s < 60

  /** A wall-clock time of day, as a TIME column or the local time of a Date holds it. */
  datatype Clock = Clock(hours: Hour, minutes: Minute, seconds: Second)

  /** A number below 100 written with two digits. */
  function TwoDigits(n: nat): (s: string)
    requires n < 100
    ensures |s| == 2 && AllDigitsIn(s, 10) && ValueIn(s, 10) == n
  {
    var d := DecimalText(n);
    DecimalTextValue(n);
    if |d| == 1 then
      var s := "0" + d;
      assert s[..1] == "0";
      s
    else d
  }

  /** The text the PostgreSQL driver hands back for a TIME value. */
  function PgText(c: Clock): string {
    TwoDigits(c.hours) + ":" + TwoDigits(c.minutes) + ":" + TwoDigits(c.seconds)
  }

  /** Seconds since midnight: the order of TIME values. */
  function SecondOfDay(c: Clock): int {
    c.hours * 3600 + c.minutes * 60 + c.seconds
  }

  /** The JavaScript values a formatter can be handed. */
  datatype TimeValue =
    | Absent                            // null or undefined
    | Text(s: string)                   // a string
    | DateObject(clock: Option<Clock>)  // a Date; None is an invalid Date
    | Other(truthy: bool)               // any other value: a number, an object, ...

  predicate Falsy(t: TimeValue) {
    t.Absent? || (t.Text? && t.s == "") || (t.Other? && !t.truthy)
  }

  /** What a formatter returns: null, a display string, or a thrown TypeError. */
  datatype Formatted = Null | Shown(text: string) | TypeError

  /** `hours >= 12 ? 'PM' : 'AM'`; NaN compares false. */
  function Period(h: Number): string {
    if h.Num? && h.n >= 12 then "PM" else "AM"
  }

  /** `hours % 12 || 12`: a zero or NaN remainder is falsy and gives 12. */
  function DisplayHour(h: Number): (d: int)
    ensures h.Num? && 0 <= h.n < 24 ==> 1 <= d <= 12 && d % 12 == h.n % 12
  {
    if h.NaN? then 12 else var r := JsRem(h.n, 12); if r == 0 then 12 else r
  }

  /** `${displayHour}:${minutes} ${period}` */
  function Display(h: Number, minuteText: string): string {
    IntText(DisplayHour(h)) + ":" + minuteText + " " + Period(h)
  }

  function FormatTime(t: TimeValue): (r: Formatted)
    ensures Falsy(t) ==> r == Null
    ensures t.Other? ==> r == Null
    ensures t.DateObject? ==> r.Shown?
  {
    if Falsy(t) then Null
    else match t
      case Text(s) => FormatText(s)
      case DateObject(c) =>
        if c.Some? then Shown(Display(Num(c.value.hours), PadStart2(NumberText(Num(c.value.minutes)))))
        else Shown(Display(NaN, PadStart2(NumberText(NaN))))
      case _ => Null
  }

  /** The string branch: `time.split(':').map(Number)` gives hours and minutes. */
  function FormatText(s: string): Formatted {
    var parts := Split(s, ':');
    var hours := ToNumber(parts[0]);
    if |parts| < 2 then TypeError  // `minutes` is undefined: `minutes.toString()` throws
    else Shown(Display(hours, PadStart2(NumberText(ToNumber(parts[1])))))
  }

  /** On a valid time the display reads "h:mm AM|PM": the hour is `hours % 12`
      with 0 shown as 12, the minutes have exactly two digits, and the period
      is PM exactly from noon on. */
  lemma ClockDisplay(c: Clock)
    ensures var d := DisplayHour(Num(c.hours));
      && 1 <= d <= 12 && d % 12 == c.hours % 12
      && FormatTime(DateObject(Some(c)))
         == Shown(DecimalText(d) + ":" + TwoDigits(c.minutes) + " " + (if c.hours >= 12 then "PM" else "AM"))
  {
  }

  /** An invalid Date is not turned away: its NaN hours and minutes show as "12:NaN AM". */
  lemma InvalidDateDisplay()
    ensures FormatTime(DateObject(None)) == Shown("12:NaN AM")
  {
  }

  /** A string without a colon leaves `minutes` undefined and the formatter throws. */
  lemma NoColonThrows(s: string)
    requires s != "" && ':' !in s
    ensures FormatTime(Text(s)) == TypeError
  {
  }

  lemma NoColonInDigits(s: string)
    requires AllDigitsIn(s, 10)
    ensures ':' !in s
  {
  }

  /** Three colon-free fields joined by colons split back into those fields. */
  lemma SplitThree(a: string, b: string, c: string)
    requires ':' !in a && ':' !in b && ':' !in c
    ensures Split(a + ":" + b + ":" + c, ':') == [a, b, c]
  {
    var tail := b + [':'] + c;
    assert a + ":" + b + ":" + c == a + [':'] + tail;
    SplitTwo(b, ':', c);
    SplitAt(a, ':', tail);
  }

  /** The text of a TIME value splits into its three two-digit fields. */
  lemma SplitPgText(c: Clock)
    ensures Split(PgText(c), ':') == [TwoDigits(c.hours), TwoDigits(c.minutes), TwoDigits(c.seconds)]
  {
    NoColonInDigits(TwoDigits(c.hours));
    NoColonInDigits(TwoDigits(c.minutes));
    NoColonInDigits(TwoDigits(c.seconds));
    SplitThree(TwoDigits(c.hours), TwoDigits(c.minutes), TwoDigits(c.seconds));
  }

  /** A TIME text takes the string branch and reads back its own hours and minutes. */
  lemma FormatPgText(c: Clock)
    ensures FormatTime(Text(PgText(c))) == Shown(Display(Num(c.hours), TwoDigits(c.minutes)))
  {
    assert |PgText(c)| == 8;
    assert FormatTime(Text(PgText(c))) == FormatText(PgText(c));
    SplitPgText(c);
    assert ToNumber(TwoDigits(c.hours)) == Num(c.hours);
    assert ToNumber(TwoDigits(c.minutes)) == Num(c.minutes);
    assert PadStart2(NumberText(Num(c.minutes))) == TwoDigits(c.minutes);
  }

  /** The string branch and the Date branch apply the same formula: a TIME
      text formats exactly like a Date with the same hours and minutes. */
  lemma TextAndDateAgree(c: Clock)
    ensures FormatTime(Text(PgText(c))) == FormatTime(DateObject(Some(c)))
  {
    FormatPgText(c);
    FormatClock(c);
  }

  lemma FormatClock(c: Clock)
    ensures FormatTime(DateObject(Some(c))) == Shown(Display(Num(c.hours), TwoDigits(c.minutes)))
  {
    var m := PadStart2(NumberText(Num(c.minutes)));
    assert m == TwoDigits(c.minutes);
    assert FormatTime(DateObject(Some(c))) == Shown(Display(Num(c.hours), m));
  }
}
