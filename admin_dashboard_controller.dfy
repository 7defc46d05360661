/** src/controllers/adminDashboardController.js: the appointment counts of the
    dashboard and the controller's own `formatTime`, which differs from the
    shared one in src/utils/timeUtils.js. */
module AdminDashboardController {
  import opened Js
  import opened Schema
  import opened TimeUtils
  import AppointmentController

  // ---------------------------------------------------------------------
  // The counts

  /** The inner joins of the appointments query: the patient, the doctor, the
      doctor's user and the time slot all exist. */
  predicate Listed(t: Tables, a: Appointment) {
    (exists u :: u in t.users && u.id == a.patientId)
    && (exists d :: d in t.doctors && d.id == a.doctorId && exists du :: du in t.users && du.id == d.userId)
    && (exists s :: s in t.timeSlots && s.id == a.timeSlotId)
  }

  /** The rows the dashboard lists. */
  function DashboardRows(t: Tables): (r: seq<Appointment>)
    ensures forall a :: a in r <==> a in t.appointments && Listed(t, a)
  {
    Filter(t.appointments, (a: Appointment) => Listed(t, a))
  }

  /** `stats`: the total and three per-status counts; `completed` has none. */
  datatype DashboardStats = DashboardStats(total: nat, confirmed: nat, pending: nat, cancelled: nat)

  function Dashboard(rows: seq<Appointment>): DashboardStats {
    DashboardStats(|rows|, AppointmentController.CountStatus(rows, "confirmed"),
      AppointmentController.CountStatus(rows, "pending"), AppointmentController.CountStatus(rows, "cancelled"))
  }

  /** The three counts fall short of the total by exactly the completed rows
      and the rows with any other status. */
  lemma DashboardCountsShort(rows: seq<Appointment>)
    ensures var s := Dashboard(rows);
      && s.confirmed + s.pending + s.cancelled
         == s.total - AppointmentController.CountStatus(rows, "completed") - AppointmentController.CountOther(rows)
      && s.confirmed + s.pending + s.cancelled <= s.total
  {
    AppointmentController.StatsPartition(rows);
  }

  lemma {:induction false} CountStatusAppend(rows: seq<Appointment>, a: Appointment, status: string)
    ensures AppointmentController.CountStatus(rows + [a], status)
            == AppointmentController.CountStatus(rows, status) + (if a.status == status then 1 else 0)
    decreases |rows|
  {
    if rows == [] {
      assert [a][1..] == [];
    } else {
      assert (rows + [a])[0] == rows[0];
      assert (rows + [a])[1..] == rows[1..] + [a];
      CountStatusAppend(rows[1..], a, status);
    }
  }

  /** A completed appointment raises the total and none of the counts. */
  lemma CompletedUncounted(rows: seq<Appointment>, a: Appointment)
    requires a.status == "completed"
    ensures var before := Dashboard(rows);
      var after := Dashboard(rows + [a]);
      after == before.(total := before.total + 1)
  {
    CountStatusAppend(rows, a, "confirmed");
    CountStatusAppend(rows, a, "pending");
    CountStatusAppend(rows, a, "cancelled");
  }

  // ---------------------------------------------------------------------
  // The controller's formatTime

  /** `asDate` is what `new Date(time)` yields for a value that is not a
      string with a colon (None: an invalid Date); a Date object is used as it is. */
  function DashboardFormat(t: TimeValue, asDate: Option<Clock>): (r: Formatted)
    ensures r != TypeError
    ensures Falsy(t) ==> r == Null
    ensures t == DateObject(None) ==> r == Null
    ensures !Falsy(t) && t.DateObject? && t.clock.Some? ==> r == FormatTime(t)
  {
    if Falsy(t) then Null
    else if t.Text? && ':' in t.s then
      var parts := Split(t.s, ':');
      Shown(Display(ToNumber(parts[0]), parts[1]))
    else
      var date := if t.DateObject? then t.clock else asDate;
      if date.None? then Null
      else
        FormatClock(date.value);
        Shown(Display(Num(date.value.hours), PadStart2(NumberText(Num(date.value.minutes)))))
  }

  /** The string branch writes the minutes as they come, without padding, and
      coerces only the hours. */
  lemma MinutesVerbatim(h: string, m: string, asDate: Option<Clock>)
    requires ':' !in h && ':' !in m
    ensures DashboardFormat(Text(h + ":" + m), asDate) == Shown(Display(ToNumber(h), m))
  {
    var s := h + ":" + m;
    assert s == h + [':'] + m;
    assert s[|h|] == ':';
    SplitAt(h, ':', m);
    assert IndexOf(m, ':') == -1;
  }

  // The facts behind `UnpaddedMinutesDiffer`, one per lemma: a literal string
  // in the context of one lemma makes the solver unfold every formatter it
  // meets, so each small step is proved on its own.

  lemma DisplayNine(m: string)
    ensures Display(Num(9), m) == "9:" + m + " AM"
  {
    assert DisplayHour(Num(9)) == 9;
    assert IntText(9) == "9";
  }

  lemma SplitNineFive()
    ensures Split("9:5", ':') == ["9", "5"]
  {
    assert "9:5" == "9" + [':'] + "5";
    SplitTwo("9", ':', "5");
  }

  lemma NineFiveText()
    ensures "9" + ":" + "5" == "9:5"
    ensures "9:" + "5" + " AM" == "9:5 AM"
  {
  }

  lemma NineNumber()
    ensures ToNumber("9") == Num(9)
  {
  }

  lemma DashboardNineFive(asDate: Option<Clock>)
    ensures DashboardFormat(Text("9:5"), asDate) == Shown("9:5 AM")
  {
    NineFiveText();
    MinutesVerbatim("9", "5", asDate);
    NineNumber();
    DisplayNine("5");
  }

  lemma SharedNineFive()
    ensures FormatTime(Text("9:5")) == Shown("9:05 AM")
  {
    SplitNineFive();
    assert ToNumber("9") == Num(9) && ToNumber("5") == Num(5);
    assert PadStart2(NumberText(Num(5))) == "05";
    DisplayNine("05");
    assert FormatTime(Text("9:5")) == FormatText("9:5");
  }

  /** The two formatters part ways on "9:5": the dashboard shows
      "9:5 AM", the shared formatter pads to "9:05 AM". */
  lemma UnpaddedMinutesDiffer(asDate: Option<Clock>)
    ensures DashboardFormat(Text("9:5"), asDate) == Shown("9:5 AM")
    ensures FormatTime(Text("9:5")) == Shown("9:05 AM")
  {
    DashboardNineFive(asDate);
    SharedNineFive();
  }

  /** On what the database hands back for a TIME column both formatters agree. */
  lemma AgreeOnPgText(c: Clock, asDate: Option<Clock>)
    ensures DashboardFormat(Text(PgText(c)), asDate) == FormatTime(Text(PgText(c)))
    ensures DashboardFormat(Text(PgText(c)), asDate) == Shown(Display(Num(c.hours), TwoDigits(c.minutes)))
  {
    SplitPgText(c);
    FormatPgText(c);
    var h, m, s := TwoDigits(c.hours), TwoDigits(c.minutes), TwoDigits(c.seconds);
    NoColonInDigits(h);
    assert ':' in PgText(c) by {
      assert PgText(c)[2] == ':';
    }
    assert ToNumber(h) == Num(c.hours);
  }

  /** Where the shared formatter throws or shows a NaN display, the dashboard
      returns null: a string without a colon whose Date is invalid, and an
      invalid Date. */
  lemma NullWhereSharedFails(s: string)
    requires s != "" && ':' !in s
    ensures DashboardFormat(Text(s), None) == Null && FormatTime(Text(s)) == TypeError
    ensures DashboardFormat(DateObject(None), None) == Null && FormatTime(DateObject(None)) == Shown("12:NaN AM")
  {
    NoColonThrows(s);
    InvalidDateDisplay();
  }
}
