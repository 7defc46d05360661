/** src/controllers/doctorController.js: the 15-day availability view of a
    doctor, the doctor listing's query builder, and the doctor-id check. */
module DoctorController {
  import opened Js
  import opened TimeUtils
  import opened Schema
  import opened QueryText

  // ---------------------------------------------------------------------
  // Weekdays

  /** `getDay() === 0 ? 7 : getDay()`: the stored weekday convention, Monday 1 to Sunday 7. */
  function ViewWeekday(d: Day): (w: int)
    ensures 1 <= w <= 7
  {
    if JsGetDay(d) == 0 then 7 else JsGetDay(d)
  }

  /** The remap sends JavaScript's Sunday (0) to 7 and keeps Monday to Saturday. */
  lemma ViewWeekdayRemap(d: Day)
    ensures JsGetDay(d) == 0 ==> ViewWeekday(d) == 7
    ensures JsGetDay(d) != 0 ==> ViewWeekday(d) == JsGetDay(d)
    ensures ViewWeekday(d) % 7 == JsGetDay(d)
  {
  }

  lemma JsGetDayShift(d: Day, k: nat)
    ensures JsGetDay(d + k) == (JsGetDay(d) + k) % 7
  {
    var q := (d + 4) / 7;
    assert d + 4 == 7 * q + JsGetDay(d);
    assert d + k + 4 == 7 * q + (JsGetDay(d) + k);
  }

  /** Two days less than a week apart fall on different weekdays. */
  lemma WeekdaysDistinct(d1: Day, d2: Day)
    requires d1 < d2 < d1 + 7
    ensures ViewWeekday(d1) != ViewWeekday(d2)
  {
    ViewWeekdayRemap(d1);
    ViewWeekdayRemap(d2);
    var q1, q2 := (d1 + 4) / 7, (d2 + 4) / 7;
    assert d1 + 4 == 7 * q1 + JsGetDay(d1);
    assert d2 + 4 == 7 * q2 + JsGetDay(d2);
  }

  /** Any seven consecutive days meet every stored weekday, each exactly once. */
  lemma WeekCoversEveryWeekday(start: Day, w: int)
    requires 1 <= w <= 7
    ensures exists d :: start <= d < start + 7 && ViewWeekday(d) == w
    ensures forall d1, d2 :: start <= d1 < d2 < start + 7 ==> ViewWeekday(d1) != ViewWeekday(d2)
  {
    var r := JsGetDay(start);
    var k := if w % 7 >= r then w % 7 - r else w % 7 + 7 - r;
    JsGetDayShift(start, k);
    assert ViewWeekday(start + k) == w;
    forall d1, d2 | start <= d1 < d2 < start + 7
      ensures ViewWeekday(d1) != ViewWeekday(d2)
    {
      WeekdaysDistinct(d1, d2);
    }
  }

  // ---------------------------------------------------------------------
  // The availability pattern query

  /** A row of the pattern query: the rule's weekday and its time slot. */
  datatype PatternRow = PatternRow(dayOfWeek: int, slot: TimeSlot)

  /** The slots of the catalog with the given id, each paired with the weekday. */
  function MatchSlots(day: int, slotId: int, slots: seq<TimeSlot>): (r: seq<PatternRow>)
    ensures forall x :: x in r <==> x.dayOfWeek == day && x.slot in slots && x.slot.id == slotId
  {
    if slots == [] then []
    else (if slots[0].id == slotId then [PatternRow(day, slots[0])] else []) + MatchSlots(day, slotId, slots[1..])
  }

  /** `doctor_availability da JOIN time_slots ts ON da.time_slot_id = ts.id
      WHERE da.doctor_id = $1 AND da.is_available = true`, before ordering. */
  function JoinRules(rules: seq<Rule>, slots: seq<TimeSlot>, doc: int): (r: seq<PatternRow>)
    ensures forall x :: x in r <==> x.slot in slots && Rule(doc, x.dayOfWeek, x.slot.id, true) in rules
  {
    if rules == [] then []
    else
      var h := rules[0];
      var rest := JoinRules(rules[1..], slots, doc);
      assert forall q :: q in rules <==> q == h || q in rules[1..];
      (if h.doctorId == doc && h.isAvailable then MatchSlots(h.dayOfWeek, h.timeSlotId, slots) else []) + rest
  }

  /** The sort key of `ORDER BY da.day_of_week ASC, ts.start_time ASC`. */
  function Key(r: PatternRow): int {
    r.dayOfWeek * 86400 + SecondOfDay(r.slot.startTime)
  }

  /** The key orders by weekday first, then by start time within a weekday. */
  lemma KeyIsLexicographic(a: PatternRow, b: PatternRow)
    ensures Key(a) <= Key(b) <==>
      a.dayOfWeek < b.dayOfWeek
      || (a.dayOfWeek == b.dayOfWeek && SecondOfDay(a.slot.startTime) <= SecondOfDay(b.slot.startTime))
  {
    var sa, sb := SecondOfDay(a.slot.startTime), SecondOfDay(b.slot.startTime);
    assert 0 <= sa < 86400 && 0 <= sb < 86400;
    if a.dayOfWeek < b.dayOfWeek {
      assert a.dayOfWeek * 86400 + 86400 <= b.dayOfWeek * 86400;
    } else if a.dayOfWeek > b.dayOfWeek {
      assert b.dayOfWeek * 86400 + 86400 <= a.dayOfWeek * 86400;
    }
  }

  predicate Ordered(rows: seq<PatternRow>) {
    forall i, j :: 0 <= i < j < |rows| ==> Key(rows[i]) <= Key(rows[j])
  }

  function Insert(x: PatternRow, rows: seq<PatternRow>): seq<PatternRow> {
    if rows == [] then [x]
    else if Key(x) <= Key(rows[0]) then [x] + rows
    else [rows[0]] + Insert(x, rows[1..])
  }

  /** Rows in key order; rows with equal keys keep their table order, one of
      the orders SQL admits for ties. */
  function SortRows(rows: seq<PatternRow>): seq<PatternRow> {
    if rows == [] then [] else Insert(rows[0], SortRows(rows[1..]))
  }

  lemma {:induction false} InsertPerm(x: PatternRow, rows: seq<PatternRow>)
    ensures multiset(Insert(x, rows)) == multiset(rows) + multiset{x}
    decreases |rows|
  {
    if rows != [] && Key(x) > Key(rows[0]) {
      InsertPerm(x, rows[1..]);
      assert rows == [rows[0]] + rows[1..];
    }
  }

  /** Inserting a row no lower than `lo` into rows no lower than `lo` keeps them so. */
  lemma {:induction false} InsertAbove(x: PatternRow, rows: seq<PatternRow>, lo: int)
    requires lo <= Key(x)
    requires forall i :: 0 <= i < |rows| ==> lo <= Key(rows[i])
    ensures forall i :: 0 <= i < |Insert(x, rows)| ==> lo <= Key(Insert(x, rows)[i])
    decreases |rows|
  {
    if rows != [] && Key(x) > Key(rows[0]) {
      var rest := Insert(x, rows[1..]);
      assert forall i :: 0 <= i < |rows[1..]| ==> rows[1..][i] == rows[i + 1];
      InsertAbove(x, rows[1..], lo);
      var r := [rows[0]] + rest;
      forall i | 0 <= i < |r|
        ensures lo <= Key(r[i])
      {
        if i > 0 {
          assert r[i] == rest[i - 1];
        }
      }
    }
  }

  lemma {:induction false} InsertOrdered(x: PatternRow, rows: seq<PatternRow>)
    requires Ordered(rows)
    ensures Ordered(Insert(x, rows))
    decreases |rows|
  {
    if rows != [] && Key(x) > Key(rows[0]) {
      var tail := rows[1..];
      var rest := Insert(x, tail);
      assert forall i :: 0 <= i < |tail| ==> tail[i] == rows[i + 1];
      InsertOrdered(x, tail);
      InsertAbove(x, tail, Key(rows[0]));
      var r := [rows[0]] + rest;
      forall i, j | 0 <= i < j < |r|
        ensures Key(r[i]) <= Key(r[j])
      {
        assert r[j] == rest[j - 1];
        if i > 0 {
          assert r[i] == rest[i - 1];
        }
      }
    }
  }

  /** The sort orders the rows and keeps every row, each as often as before. */
  lemma {:induction false} SortRowsSorts(rows: seq<PatternRow>)
    ensures Ordered(SortRows(rows))
    ensures multiset(SortRows(rows)) == multiset(rows)
    decreases |rows|
  {
    if rows != [] {
      SortRowsSorts(rows[1..]);
      InsertOrdered(rows[0], SortRows(rows[1..]));
      InsertPerm(rows[0], SortRows(rows[1..]));
      assert rows == [rows[0]] + rows[1..];
    }
  }

  /** The result of the availability pattern query. */
  function PatternQuery(t: Tables, doc: int): seq<PatternRow> {
    SortRows(JoinRules(t.availability, t.timeSlots, doc))
  }

  lemma PatternQueryRows(t: Tables, doc: int)
    ensures Ordered(PatternQuery(t, doc))
    ensures forall x :: x in PatternQuery(t, doc) <==>
      x.slot in t.timeSlots && Rule(doc, x.dayOfWeek, x.slot.id, true) in t.availability
  {
    var j := JoinRules(t.availability, t.timeSlots, doc);
    SortRowsSorts(j);
    assert forall x :: x in PatternQuery(t, doc) <==> x in multiset(j);
  }

  // ---------------------------------------------------------------------
  // Grouping by weekday

  /** An entry of a day's `timeSlots` list, holding the slot's TIME values;
      `Written` gives the text the reply carries for them. */
  datatype SlotEntry = SlotEntry(id: int, startTime: Clock, endTime: Clock, isAvailable: bool)

  /** The entry the reduce pushes for a pattern row; every entry starts out available. */
  function EntryOf(r: PatternRow): SlotEntry {
    SlotEntry(r.slot.id, r.slot.startTime, r.slot.endTime, true)
  }

  /** An entry as the reply writes it: the TIME values arrive as "HH:MM:SS" text
      and pass through `formatTime`. */
  datatype WrittenEntry = WrittenEntry(id: int, startTime: Formatted, endTime: Formatted, isAvailable: bool)

  function Written(e: SlotEntry): WrittenEntry {
    WrittenEntry(e.id, FormatTime(Text(PgText(e.startTime))), FormatTime(Text(PgText(e.endTime))), e.isAvailable)
  }

  /** The written times read "h:mm AM|PM" with the slot's own hours and minutes. */
  lemma WrittenTimes(e: SlotEntry)
    ensures Written(e).startTime == Shown(Display(Num(e.startTime.hours), TwoDigits(e.startTime.minutes)))
    ensures Written(e).endTime == Shown(Display(Num(e.endTime.hours), TwoDigits(e.endTime.minutes)))
  {
    FormatPgText(e.startTime);
    FormatPgText(e.endTime);
  }

  /** The rows of one weekday, in their order. */
  function OfDay(rows: seq<PatternRow>, w: int): seq<PatternRow> {
    if rows == [] then []
    else
      var last := rows[|rows| - 1];
      OfDay(rows[..|rows| - 1], w) + (if last.dayOfWeek == w then [last] else [])
  }

  /** A row is kept exactly when it belongs to the weekday. */
  lemma {:induction false} OfDayMembers(rows: seq<PatternRow>, w: int)
    ensures forall x :: x in OfDay(rows, w) <==> x in rows && x.dayOfWeek == w
    decreases |rows|
  {
    if rows != [] {
      var init := rows[..|rows| - 1];
      var last := rows[|rows| - 1];
      assert rows == init + [last];
      OfDayMembers(init, w);
    }
  }

  function EntriesOf(rows: seq<PatternRow>): (r: seq<SlotEntry>)
    ensures |r| == |rows|
  {
    seq(|rows|, i requires 0 <= i < |rows| => EntryOf(rows[i]))
  }

  /** Entry `i` is the entry of row `i`. */
  lemma {:induction false} EntriesOfAt(rows: seq<PatternRow>)
    ensures forall i :: 0 <= i < |rows| ==> EntriesOf(rows)[i] == EntryOf(rows[i])
    decreases |rows|
  {
    if rows != [] {
      EntriesOfAt(rows[..|rows| - 1]);
    }
  }

  lemma OfDayAppend(rows: seq<PatternRow>, r: PatternRow, w: int)
    ensures OfDay(rows + [r], w) == OfDay(rows, w) + (if r.dayOfWeek == w then [r] else [])
  {
    assert (rows + [r])[..|rows|] == rows;
  }

  lemma EntriesOfAppend(rows: seq<PatternRow>, r: PatternRow)
    ensures EntriesOf(rows + [r]) == EntriesOf(rows) + [EntryOf(r)]
  {
    assert (rows + [r])[..|rows|] == rows;
  }

  /** Keeping one weekday's rows keeps their order. */
  lemma {:induction false} OfDayOrdered(rows: seq<PatternRow>, w: int)
    requires Ordered(rows)
    ensures Ordered(OfDay(rows, w))
    decreases |rows|
  {
    if rows != [] {
      var init := rows[..|rows| - 1];
      var last := rows[|rows| - 1];
      assert Ordered(init);
      OfDayOrdered(init, w);
      OfDayMembers(init, w);
      var d := OfDay(init, w);
      forall y | y in d
        ensures Key(y) <= Key(last)
      {
        var i :| 0 <= i < |init| && init[i] == y;
      }
      if last.dayOfWeek == w {
        var r := d + [last];
        forall i, j | 0 <= i < j < |r|
          ensures Key(r[i]) <= Key(r[j])
        {
          assert r[i] == d[i];
          if j < |d| {
            assert r[j] == d[j];
          } else {
            assert d[i] in d;
          }
        }
      }
    }
  }

  /** Every kept row belongs to the weekday. */
  lemma OfDayWeekday(rows: seq<PatternRow>, w: int)
    ensures forall i :: 0 <= i < |OfDay(rows, w)| ==> OfDay(rows, w)[i].dayOfWeek == w
  {
    OfDayMembers(rows, w);
    var d := OfDay(rows, w);
    forall i | 0 <= i < |d|
      ensures d[i].dayOfWeek == w
    {
      assert d[i] in d;
    }
  }

  /** The slots of one weekday are in start-time order. */
  lemma DayRowsInStartOrder(rows: seq<PatternRow>, w: int)
    requires Ordered(rows)
    ensures forall i, j :: 0 <= i < j < |OfDay(rows, w)| ==>
      SecondOfDay(OfDay(rows, w)[i].slot.startTime) <= SecondOfDay(OfDay(rows, w)[j].slot.startTime)
  {
    OfDayOrdered(rows, w);
    OfDayWeekday(rows, w);
    var d := OfDay(rows, w);
    forall i, j | 0 <= i < j < |d|
      ensures SecondOfDay(d[i].slot.startTime) <= SecondOfDay(d[j].slot.startTime)
    {
      KeyIsLexicographic(d[i], d[j]);
    }
  }

  /** `availabilityByDay[day] || []` */
  function Lookup(byDay: map<int, seq<SlotEntry>>, w: int): seq<SlotEntry> {
    if w in byDay then byDay[w] else []
  }

  // ---------------------------------------------------------------------
  // Booked slots

  /** A row of the booked query. */
  datatype BookedRow = BookedRow(date: Day, slotId: int)

  /** An appointment that the view counts as holding a slot. */
  predicate ViewBlocks(a: Appointment, doc: int, d: Day, slotId: int) {
    a.doctorId == doc && a.date == d && a.timeSlotId == slotId && a.status != "cancelled"
  }

  /** `SELECT appointment_date, time_slot_id FROM appointments WHERE doctor_id = $1
      AND appointment_date >= $2 AND appointment_date < $3 AND status != 'cancelled'` */
  function BookedQuery(apps: seq<Appointment>, doc: int, from: Day, to: Day): seq<BookedRow> {
    if apps == [] then []
    else
      var a := apps[0];
      (if a.doctorId == doc && from <= a.date < to && a.status != "cancelled"
       then [BookedRow(a.date, a.timeSlotId)] else []) + BookedQuery(apps[1..], doc, from, to)
  }

  /** The booked query returns a (date, slot) pair exactly when the date is in
      range and a non-cancelled appointment of the doctor holds that slot then. */
  lemma {:induction false} BookedQueryRows(apps: seq<Appointment>, doc: int, from: Day, to: Day, d: Day, s: int)
    ensures BookedRow(d, s) in BookedQuery(apps, doc, from, to) <==>
      from <= d < to && exists a :: a in apps && ViewBlocks(a, doc, d, s)
    decreases |apps|
  {
    if apps != [] {
      var a := apps[0];
      var head := if a.doctorId == doc && from <= a.date < to && a.status != "cancelled"
        then [BookedRow(a.date, a.timeSlotId)] else [];
      var tail := BookedQuery(apps[1..], doc, from, to);
      assert BookedQuery(apps, doc, from, to) == head + tail;
      BookedQueryRows(apps[1..], doc, from, to, d, s);
      assert BookedRow(d, s) in head <==> from <= d < to && ViewBlocks(a, doc, d, s);
      if exists b :: b in apps && ViewBlocks(b, doc, d, s) {
        var b :| b in apps && ViewBlocks(b, doc, d, s);
        if b != a {
          assert b in apps[1..];
        }
      }
      if exists b :: b in apps[1..] && ViewBlocks(b, doc, d, s) {
        var b :| b in apps[1..] && ViewBlocks(b, doc, d, s);
        assert b in apps;
      }
    }
  }

  /** `bookedSlots.get(dateKey) || new Set()`; dates are their own keys. */
  function BookedOn(booked: map<Day, set<int>>, d: Day): set<int> {
    if d in booked then booked[d] else {}
  }

  /** The slot ids the booked rows hold on a date. */
  function BookedSet(rows: seq<BookedRow>, d: Day): set<int> {
    set r | r in rows && r.date == d :: r.slotId
  }

  /** A slot id is in the set exactly when a booked row holds it on that date. */
  lemma BookedSetMembers(rows: seq<BookedRow>, d: Day)
    ensures forall id :: id in BookedSet(rows, d) <==> BookedRow(d, id) in rows
  {
    forall id | id in BookedSet(rows, d)
      ensures BookedRow(d, id) in rows
    {
      var r :| r in rows && r.date == d && r.slotId == id;
      assert r == BookedRow(d, id);
    }
  }

  /** `.map(slot => ({...slot, isAvailable: !booked.has(slot.id)}))` */
  function MarkBooked(entries: seq<SlotEntry>, booked: set<int>): (r: seq<SlotEntry>)
    ensures |r| == |entries|
  {
    seq(|entries|, i requires 0 <= i < |entries| => entries[i].(isAvailable := entries[i].id !in booked))
  }

  // ---------------------------------------------------------------------
  // The window

  /** One element of `dates`; `fullDate` stands for the formatted date, the
      other formatted fields are presentation. */
  datatype DayEntry = DayEntry(fullDate: Day, timeSlots: seq<SlotEntry>)

  /** 400 for the id, 500 when the query fails, or the window. */
  datatype AvailabilityReply = InvalidDoctorId | AvailabilityFailed | Availability(dates: seq<DayEntry>)

  /** The entry for day `d`, given the pattern rows and the booked rows. */
  function ViewDay(pattern: seq<PatternRow>, booked: seq<BookedRow>, d: Day): DayEntry {
    DayEntry(d, MarkBooked(EntriesOf(OfDay(pattern, ViewWeekday(d))), BookedSet(booked, d)))
  }

  /** The entry of each day, as a function of the day. */
  function DayView(pattern: seq<PatternRow>, booked: seq<BookedRow>): Day -> DayEntry {
    d => ViewDay(pattern, booked, d)
  }

  /** The entries of `n` consecutive days from `start`. */
  function Days(view: Day -> DayEntry, start: Day, n: nat): (r: seq<DayEntry>)
    ensures |r| == n
  {
    if n == 0 then [] else Days(view, start, n - 1) + [view(start + n - 1)]
  }

  lemma {:induction false} DaysAt(view: Day -> DayEntry, start: Day, n: nat, k: int)
    requires 0 <= k < n
    ensures Days(view, start, n)[k] == view(start + k)
    decreases n
  {
    if k < n - 1 {
      DaysAt(view, start, n - 1, k);
    }
  }

  lemma DaysViewAt(pattern: seq<PatternRow>, booked: seq<BookedRow>, start: Day, n: nat, k: int)
    requires 0 <= k < n
    ensures |Days(DayView(pattern, booked), start, n)| == n
    ensures Days(DayView(pattern, booked), start, n)[k] == ViewDay(pattern, booked, start + k)
  {
    DaysAt(DayView(pattern, booked), start, n, k);
  }

  /** A day's list has one entry per row of its weekday, in order, each
      available exactly when its slot is not booked that day. */
  lemma ViewDaySlots(pattern: seq<PatternRow>, booked: seq<BookedRow>, d: Day)
    ensures var rows := OfDay(pattern, ViewWeekday(d));
      var slots := ViewDay(pattern, booked, d).timeSlots;
      && |slots| == |rows|
      && forall i :: 0 <= i < |slots| ==>
           slots[i] == EntryOf(rows[i]).(isAvailable := rows[i].slot.id !in BookedSet(booked, d))
  {
    var rows := OfDay(pattern, ViewWeekday(d));
    EntriesOfAt(rows);
  }

  /** On any day, a slot is marked unavailable exactly when a booked row holds it on that day. */
  lemma ViewDayMarking(pattern: seq<PatternRow>, booked: seq<BookedRow>, d: Day, i: int)
    requires 0 <= i < |ViewDay(pattern, booked, d).timeSlots|
    ensures var e := ViewDay(pattern, booked, d).timeSlots[i];
      !e.isAvailable <==> BookedRow(d, e.id) in booked
  {
    ViewDaySlots(pattern, booked, d);
  }

  /** Two booked lists that agree on a day give that day the same entry. */
  lemma ViewDaySameBookings(pattern: seq<PatternRow>, b1: seq<BookedRow>, b2: seq<BookedRow>, d: Day)
    requires forall s :: BookedRow(d, s) in b1 <==> BookedRow(d, s) in b2
    ensures ViewDay(pattern, b1, d) == ViewDay(pattern, b2, d)
  {
    assert BookedSet(b1, d) == BookedSet(b2, d);
  }

  /** The days from `start` to `start + 14` inclusive, with bookings fetched
      from the half-open range `[start, start + 14)`. */
  function Window(t: Tables, doc: int, start: Day): seq<DayEntry> {
    Days(DayView(PatternQuery(t, doc), BookedQuery(t.appointments, doc, start, start + 14)), start, 15)
  }

  /** The `forEach` that fills `bookedSlots`. */
  method CollectBooked(rows: seq<BookedRow>) returns (booked: map<Day, set<int>>)
    ensures forall d :: BookedOn(booked, d) == BookedSet(rows, d)
  {
    booked := map[];
    for i := 0 to |rows|
      invariant forall d, s :: s in BookedOn(booked, d) <==> BookedRow(d, s) in rows[..i]
    {
      var r := rows[i];
      assert rows[..i + 1] == rows[..i] + [r];
      booked := booked[r.date := BookedOn(booked, r.date) + {r.slotId}];
    }
    assert rows[..|rows|] == rows;
    forall d
      ensures BookedOn(booked, d) == BookedSet(rows, d)
    {
      assert forall s :: s in BookedOn(booked, d) <==> s in BookedSet(rows, d);
    }
  }

  /** The `reduce` that builds `availabilityByDay`. */
  method GroupByDay(pattern: seq<PatternRow>) returns (byDay: map<int, seq<SlotEntry>>)
    ensures forall w :: Lookup(byDay, w) == EntriesOf(OfDay(pattern, w))
  {
    byDay := map[];
    for i := 0 to |pattern|
      invariant forall w :: Lookup(byDay, w) == EntriesOf(OfDay(pattern[..i], w))
    {
      var r := pattern[i];
      assert pattern[..i + 1] == pattern[..i] + [r];
      var prev := byDay;
      byDay := byDay[r.dayOfWeek := Lookup(byDay, r.dayOfWeek) + [EntryOf(r)]];
      forall w
        ensures Lookup(byDay, w) == EntriesOf(OfDay(pattern[..i + 1], w))
      {
        OfDayAppend(pattern[..i], r, w);
        if w == r.dayOfWeek {
          EntriesOfAppend(OfDay(pattern[..i], w), r);
        } else {
          assert Lookup(byDay, w) == Lookup(prev, w);
          assert OfDay(pattern[..i], w) + [] == OfDay(pattern[..i], w);
        }
      }
    }
    assert pattern[..|pattern|] == pattern;
  }

  /** The `while (currentDate <= endDate)` loop. */
  method WalkDays(pattern: seq<PatternRow>, bookedRows: seq<BookedRow>, byDay: map<int, seq<SlotEntry>>,
                  booked: map<Day, set<int>>, start: Day, end: Day) returns (dates: seq<DayEntry>)
    requires start <= end + 1
    requires forall w :: Lookup(byDay, w) == EntriesOf(OfDay(pattern, w))
    requires forall d :: BookedOn(booked, d) == BookedSet(bookedRows, d)
    ensures dates == Days(DayView(pattern, bookedRows), start, end + 1 - start)
  {
    dates := [];
    var current := start;
    while current <= end
      invariant start <= current <= end + 1
      invariant dates == Days(DayView(pattern, bookedRows), start, current - start)
      decreases end + 1 - current
    {
      assert start + (current - start + 1) - 1 == current;
      var slots := MarkBooked(Lookup(byDay, ViewWeekday(current)), BookedOn(booked, current));
      dates := dates + [DayEntry(current, slots)];
      current := current + 1;
    }
  }

  /** GET /doctors/:id/availability. `start` is the start of the requested day,
      or of today when no date is given, and `None` when `new Date` cannot read
      the given date: the resulting Invalid Date is sent with the booked query,
      which fails. */
  method GetDoctorAvailability(db: Database, idText: string, start: Option<Day>) returns (reply: AvailabilityReply)
    ensures ParseInt(idText).None? ==> reply == InvalidDoctorId
    ensures ParseInt(idText).Some? && start.None? ==> reply == AvailabilityFailed
    ensures ParseInt(idText).Some? && start.Some? ==>
      reply == Availability(Window(db.Snapshot(), ParseInt(idText).value, start.value))
  {
    var parsed := ParseInt(idText);
    if parsed.None? {
      return InvalidDoctorId;
    }
    var doc := parsed.value;
    var pattern := PatternQuery(db.Snapshot(), doc);
    if start.None? {
      return AvailabilityFailed;
    }
    var end := start.value + 14;
    var bookedRows := BookedQuery(db.appointments, doc, start.value, end);
    var booked := CollectBooked(bookedRows);
    var byDay := GroupByDay(pattern);
    var dates := WalkDays(pattern, bookedRows, byDay, booked, start.value, end);
    reply := Availability(dates);
  }

  // ---------------------------------------------------------------------
  // Properties of the window

  /** Fifteen entries, one per consecutive day from `start` to `start + 14`. */
  lemma WindowShape(t: Tables, doc: int, start: Day)
    ensures |Window(t, doc, start)| == 15
    ensures forall k :: 0 <= k < 15 ==> Window(t, doc, start)[k].fullDate == start + k
  {
    var w := Window(t, doc, start);
    forall k | 0 <= k < 15
      ensures w[k].fullDate == start + k
    {
      WindowAt(t, doc, start, k);
    }
  }

  lemma WindowAt(t: Tables, doc: int, start: Day, k: int)
    requires 0 <= k < 15
    ensures |Window(t, doc, start)| == 15
    ensures Window(t, doc, start)[k]
      == ViewDay(PatternQuery(t, doc), BookedQuery(t.appointments, doc, start, start + 14), start + k)
  {
    DaysViewAt(PatternQuery(t, doc), BookedQuery(t.appointments, doc, start, start + 14), start, 15, k);
  }

  /** The rows behind day `start + k`: that weekday's enabled rules, in start-time order. */
  function DayRows(t: Tables, doc: int, d: Day): seq<PatternRow> {
    OfDay(PatternQuery(t, doc), ViewWeekday(d))
  }

  /** The slot list of the `k`-th of `n` days, against its weekday's rows. */
  lemma DaysSlotsAreRows(pattern: seq<PatternRow>, booked: seq<BookedRow>, start: Day, n: nat, k: int)
    requires 0 <= k < n
    ensures var slots := Days(DayView(pattern, booked), start, n)[k].timeSlots;
      var rows := OfDay(pattern, ViewWeekday(start + k));
      && |slots| == |rows|
      && forall i :: 0 <= i < |slots| ==>
           slots[i].id == rows[i].slot.id
           && slots[i].startTime == rows[i].slot.startTime
           && slots[i].endTime == rows[i].slot.endTime
  {
    DaysViewAt(pattern, booked, start, n, k);
    ViewDaySlots(pattern, booked, start + k);
  }

  /** A day's slot list has one entry per row of its weekday, in order,
      carrying that row's slot. */
  lemma DaySlotsAreRows(t: Tables, doc: int, start: Day, k: int)
    requires 0 <= k < 15
    ensures var slots := Window(t, doc, start)[k].timeSlots;
      var rows := DayRows(t, doc, start + k);
      && |slots| == |rows|
      && forall i :: 0 <= i < |slots| ==>
           slots[i].id == rows[i].slot.id
           && slots[i].startTime == rows[i].slot.startTime
           && slots[i].endTime == rows[i].slot.endTime
  {
    DaysSlotsAreRows(PatternQuery(t, doc), BookedQuery(t.appointments, doc, start, start + 14), start, 15, k);
  }

  /** The rows of a day are exactly its weekday's enabled availability rules,
      in start-time order. */
  lemma DayRowsAreRules(t: Tables, doc: int, d: Day)
    ensures var rows := DayRows(t, doc, d);
      && (forall x :: x in rows <==>
           x.dayOfWeek == ViewWeekday(d) && x.slot in t.timeSlots
           && Rule(doc, x.dayOfWeek, x.slot.id, true) in t.availability)
      && (forall i, j :: 0 <= i < j < |rows| ==>
           SecondOfDay(rows[i].slot.startTime) <= SecondOfDay(rows[j].slot.startTime))
  {
    var pattern := PatternQuery(t, doc);
    PatternQueryRows(t, doc);
    OfDayMembers(pattern, ViewWeekday(d));
    DayRowsInStartOrder(pattern, ViewWeekday(d));
  }

  /** A row of a day comes from an enabled rule of the doctor for that day's weekday. */
  lemma DayRowHasRule(t: Tables, doc: int, d: Day, x: PatternRow)
    requires x in DayRows(t, doc, d)
    ensures x.dayOfWeek == ViewWeekday(d) && Rule(doc, x.dayOfWeek, x.slot.id, true) in t.availability
  {
    PatternQueryRows(t, doc);
    OfDayMembers(PatternQuery(t, doc), ViewWeekday(d));
  }

  lemma DaysSlotHasRule(t: Tables, doc: int, start: Day, to: Day, n: nat, k: int, i: int)
    requires 0 <= k < n
    requires 0 <= i < |Days(DayView(PatternQuery(t, doc), BookedQuery(t.appointments, doc, start, to)), start, n)[k].timeSlots|
    ensures Rule(doc, ViewWeekday(start + k),
      Days(DayView(PatternQuery(t, doc), BookedQuery(t.appointments, doc, start, to)), start, n)[k].timeSlots[i].id, true)
      in t.availability
  {
    var rows := DayRows(t, doc, start + k);
    DaysSlotsAreRows(PatternQuery(t, doc), BookedQuery(t.appointments, doc, start, to), start, n, k);
    DayRowHasRule(t, doc, start + k, rows[i]);
  }

  /** Every slot the window shows comes from an enabled rule of the doctor
      for that day's weekday. */
  lemma ShownSlotHasRule(t: Tables, doc: int, start: Day, k: int, i: int)
    requires 0 <= k < 15
    requires 0 <= i < |Window(t, doc, start)[k].timeSlots|
    ensures Rule(doc, ViewWeekday(start + k), Window(t, doc, start)[k].timeSlots[i].id, true) in t.availability
  {
    DaysSlotHasRule(t, doc, start, start + 14, 15, k, i);
  }

  /** A sequence with no members is empty. */
  lemma NoMembersEmpty<T>(s: seq<T>)
    ensures (forall x :: x !in s) ==> s == []
  {
    if s != [] {
      assert s[0] in s;
    }
  }

  /** A weekday without enabled rules gives an empty list, not an error. */
  lemma EmptyWeekday(t: Tables, doc: int, start: Day, k: int)
    requires 0 <= k < 15
    requires forall r :: r in t.availability ==>
      !(r.doctorId == doc && r.dayOfWeek == ViewWeekday(start + k) && r.isAvailable)
    ensures Window(t, doc, start)[k].timeSlots == []
  {
    DaySlotsAreRows(t, doc, start, k);
    DayRowsAreRules(t, doc, start + k);
    NoMembersEmpty(DayRows(t, doc, start + k));
  }

  /** With the booked rows of `[from, to)`, a slot is shown unavailable exactly
      when the day is in that range and a non-cancelled appointment of the
      doctor holds the slot then. */
  lemma FetchedMarking(pattern: seq<PatternRow>, apps: seq<Appointment>, doc: int, from: Day, to: Day, d: Day, i: int)
    requires 0 <= i < |ViewDay(pattern, BookedQuery(apps, doc, from, to), d).timeSlots|
    ensures var e := ViewDay(pattern, BookedQuery(apps, doc, from, to), d).timeSlots[i];
      !e.isAvailable <==> from <= d < to && exists a :: a in apps && ViewBlocks(a, doc, d, e.id)
  {
    var booked := BookedQuery(apps, doc, from, to);
    ViewDayMarking(pattern, booked, d, i);
    BookedQueryRows(apps, doc, from, to, d, ViewDay(pattern, booked, d).timeSlots[i].id);
  }

  /** The marking of `FetchedMarking`, read off the `k`-th of `n` days. */
  lemma DaysMarking(pattern: seq<PatternRow>, apps: seq<Appointment>, doc: int, start: Day, to: Day, n: nat, k: int, i: int)
    requires 0 <= k < n
    requires 0 <= i < |Days(DayView(pattern, BookedQuery(apps, doc, start, to)), start, n)[k].timeSlots|
    ensures var e := Days(DayView(pattern, BookedQuery(apps, doc, start, to)), start, n)[k].timeSlots[i];
      !e.isAvailable <==> start + k < to && exists a :: a in apps && ViewBlocks(a, doc, start + k, e.id)
  {
    DaysViewAt(pattern, BookedQuery(apps, doc, start, to), start, n, k);
    FetchedMarking(pattern, apps, doc, start, to, start + k, i);
  }

  /** A slot is shown unavailable exactly when a non-cancelled appointment of
      the doctor holds it on that date, and the date lies before `start + 14`. */
  lemma BookedMarking(t: Tables, doc: int, start: Day, k: int, i: int)
    requires 0 <= k < 15
    requires 0 <= i < |Window(t, doc, start)[k].timeSlots|
    ensures var e := Window(t, doc, start)[k].timeSlots[i];
      !e.isAvailable <==> k < 14 && exists a :: a in t.appointments && ViewBlocks(a, doc, start + k, e.id)
  {
    DaysMarking(PatternQuery(t, doc), t.appointments, doc, start, start + 14, 15, k, i);
  }

  /** Bookings on the last day are never fetched: its every slot shows available. */
  lemma LastDayAlwaysAvailable(t: Tables, doc: int, start: Day)
    ensures forall e :: e in Window(t, doc, start)[14].timeSlots ==> e.isAvailable
  {
    var slots := Window(t, doc, start)[14].timeSlots;
    forall e | e in slots
      ensures e.isAvailable
    {
      var i :| 0 <= i < |slots| && slots[i] == e;
      BookedMarking(t, doc, start, 14, i);
    }
  }

  /** A slot held on the last day by a pending or confirmed appointment is still offered. */
  lemma LastDayIgnoresBookings(t: Tables, doc: int, start: Day, i: int)
    requires 0 <= i < |Window(t, doc, start)[14].timeSlots|
    requires exists a :: a in t.appointments && ViewBlocks(a, doc, start + 14, Window(t, doc, start)[14].timeSlots[i].id)
    ensures Window(t, doc, start)[14].timeSlots[i].isAvailable
  {
    BookedMarking(t, doc, start, 14, i);
  }

  /** The window with bookings fetched over the days it shows. */
  function WindowCorrected(t: Tables, doc: int, start: Day): seq<DayEntry> {
    var pattern := PatternQuery(t, doc);
    Days(DayView(pattern, BookedQuery(t.appointments, doc, start, start + 15)), start, 15)
  }

  lemma WindowCorrectedAt(t: Tables, doc: int, start: Day, k: int)
    requires 0 <= k < 15
    ensures |WindowCorrected(t, doc, start)| == 15
    ensures WindowCorrected(t, doc, start)[k]
      == ViewDay(PatternQuery(t, doc), BookedQuery(t.appointments, doc, start, start + 15), start + k)
  {
    DaysViewAt(PatternQuery(t, doc), BookedQuery(t.appointments, doc, start, start + 15), start, 15, k);
  }

  /** With bookings fetched over the whole window, every day marks exactly the held slots. */
  lemma CorrectedBookedMarking(t: Tables, doc: int, start: Day, k: int, i: int)
    requires 0 <= k < 15
    requires 0 <= i < |WindowCorrected(t, doc, start)[k].timeSlots|
    ensures var e := WindowCorrected(t, doc, start)[k].timeSlots[i];
      !e.isAvailable <==> exists a :: a in t.appointments && ViewBlocks(a, doc, start + k, e.id)
  {
    DaysMarking(PatternQuery(t, doc), t.appointments, doc, start, start + 15, 15, k, i);
  }

  /** A day inside both fetched ranges gets the same entry from either. */
  lemma FetchedRangesAgree(pattern: seq<PatternRow>, apps: seq<Appointment>, doc: int, from: Day, to1: Day, to2: Day, d: Day)
    requires from <= d < to1 && d < to2
    ensures ViewDay(pattern, BookedQuery(apps, doc, from, to1), d) == ViewDay(pattern, BookedQuery(apps, doc, from, to2), d)
  {
    var b1 := BookedQuery(apps, doc, from, to1);
    var b2 := BookedQuery(apps, doc, from, to2);
    forall s
      ensures BookedRow(d, s) in b1 <==> BookedRow(d, s) in b2
    {
      BookedQueryRows(apps, doc, from, to1, d, s);
      BookedQueryRows(apps, doc, from, to2, d, s);
    }
    ViewDaySameBookings(pattern, b1, b2, d);
  }

  /** Two fetched ranges that both cover day `start + k` give the `k`-th day the same entry. */
  lemma DaysAgreeBefore(pattern: seq<PatternRow>, apps: seq<Appointment>, doc: int, start: Day, to1: Day, to2: Day, n: nat, k: int)
    requires 0 <= k < n && start + k < to1 && start + k < to2
    ensures Days(DayView(pattern, BookedQuery(apps, doc, start, to2)), start, n)[k]
         == Days(DayView(pattern, BookedQuery(apps, doc, start, to1)), start, n)[k]
  {
    DaysViewAt(pattern, BookedQuery(apps, doc, start, to1), start, n, k);
    DaysViewAt(pattern, BookedQuery(apps, doc, start, to2), start, n, k);
    FetchedRangesAgree(pattern, apps, doc, start, to1, to2, start + k);
  }

  /** The two windows agree except on the bookings of the last day. */
  lemma CorrectedAgreesBeforeLastDay(t: Tables, doc: int, start: Day, k: int)
    requires 0 <= k < 14
    ensures WindowCorrected(t, doc, start)[k] == Window(t, doc, start)[k]
  {
    DaysAgreeBefore(PatternQuery(t, doc), t.appointments, doc, start, start + 14, start + 15, 15, k);
  }

  // ---------------------------------------------------------------------
  // The doctor listing

  /** The query-string parameters of GET /doctors; absent ones are None. */
  datatype DoctorFilters = DoctorFilters(
    page: Option<string>,
    limit: Option<string>,
    search: Option<string>,
    specialty: Option<string>,
    minRating: Option<string>,
    minExperience: Option<string>)

  /** The reply's paging fields, and the listing query when there is anything to list. */
  datatype DoctorPage =
    | EmptyPage(currentPage: Option<int>)
    | Page(query: seq<Piece>, params: seq<SqlValue>, total: nat, totalPages: Option<int>, currentPage: Option<int>)

  /** `parseInt(page)`; the numeric default 1 reads back as 1. */
  function CurrentPage(page: Option<string>): Option<int> {
    if page.Some? then ParseInt(page.value) else Some(1)
  }

  /** The search and specialty steps: each optional filter writes placeholder
      `params.length + 1` and then pushes its value. */
  method DoctorConditions(f: DoctorFilters) returns (conditions: seq<Piece>, params: seq<SqlValue>)
    ensures PlaceholdersBound(conditions, params)
    ensures |params| == 2 + (if Truthy(f.search) then 1 else 0) + (if Truthy(f.specialty) then 1 else 0)
    ensures params[0] == ValueOr(f.minRating, 0) && params[1] == ValueOr(f.minExperience, 0)
    ensures Truthy(f.search) ==> params[2] == SqlText(LikePattern(f.search.value))
    ensures Truthy(f.specialty) ==> params[|params| - 1] == SqlText(f.specialty.value)
  {
    var minRating := ValueOr(f.minRating, 0);
    var minExperience := ValueOr(f.minExperience, 0);
    conditions := [Sql(" WHERE d.is_available = true AND d.avg_rating >= "), Param(1, minRating),
      Sql(" AND d.experience_years >= "), Param(2, minExperience)];
    params := [minRating, minExperience];
    if Truthy(f.search) {
      var pattern := SqlText(LikePattern(f.search.value));
      var n := |params| + 1;
      var clause := [Sql(" AND (u.name ILIKE "), Param(n, pattern), Sql(" OR s.name ILIKE "), Param(n, pattern), Sql(")")];
      BoundExtends(conditions, params, [pattern]);
      params := params + [pattern];
      BoundAppend(conditions, clause, params);
      conditions := conditions + clause;
    }
    if Truthy(f.specialty) {
      var name := SqlText(f.specialty.value);
      var clause := [Sql(" AND s.name = "), Param(|params| + 1, name)];
      BoundExtends(conditions, params, [name]);
      params := params + [name];
      BoundAppend(conditions, clause, params);
      conditions := conditions + clause;
    }
  }

  /** GET /doctors: the WHERE clause of the listing and its parameters, then,
      given the `total` the count query returns (see `ListingCountQuery`), the
      paging reply. */
  method GetAllDoctors(f: DoctorFilters, total: nat) returns (conditions: seq<Piece>, countParams: seq<SqlValue>, page: DoctorPage)
    ensures PlaceholdersBound(conditions, countParams)
    ensures |countParams| == 2 + (if Truthy(f.search) then 1 else 0) + (if Truthy(f.specialty) then 1 else 0)
    ensures total == 0 ==> page == EmptyPage(CurrentPage(f.page))
    ensures total > 0 ==> page.Page?
    ensures page.Page? ==>
      var limit := ValueOr(f.limit, 6);
      var offset := SqlNumber(Offset(NumberOr(f.page, 1), NumberOr(f.limit, 6)));
      var n := |countParams|;
      && page.params == countParams + [limit, offset]
      && PlaceholdersBound(page.query, page.params)
      && |page.query| == |conditions| + 4
      && page.query[..|conditions|] == conditions
      && page.query[|conditions| + 1] == Param(n + 1, limit)
      && page.query[|conditions| + 3] == Param(n + 2, offset)
      && page.total == total
      && page.totalPages == TotalPages(total, NumberOr(f.limit, 6))
      && page.currentPage == CurrentPage(f.page)
  {
    conditions, countParams := DoctorConditions(f);
    if total == 0 {
      page := EmptyPage(CurrentPage(f.page));
      return;
    }
    // `limit` is pushed as given; only the offset and the page count coerce it.
    var limit := ValueOr(f.limit, 6);
    var offset := SqlNumber(Offset(NumberOr(f.page, 1), NumberOr(f.limit, 6)));
    var params := countParams + [limit, offset];
    var tail := [Sql(" ORDER BY d.avg_rating DESC LIMIT "), Param(|countParams| + 1, limit),
      Sql(" OFFSET "), Param(|countParams| + 2, offset)];
    BoundExtends(conditions, countParams, [limit, offset]);
    BoundAppend(conditions, tail, params);
    var query := conditions + tail;
    assert query[..|conditions|] == conditions;
    page := Page(query, params, total, TotalPages(total, NumberOr(f.limit, 6)), CurrentPage(f.page));
  }

  /** The listing's count query, `query.replace(/SELECT.*?FROM/s, ...)`: with
      the `s` flag the select list up to the first `FROM`, across the line
      breaks between its columns, becomes `COUNT(*) as total`, and the rest of
      the query, its joins and WHERE clause, is kept. */
  lemma ListingCountQuery(lead: string, cols: string, rest: string)
    requires 'S' !in lead
    requires forall k :: 0 <= k < |cols| ==> !OccursAt(cols + "FROM", "FROM", k)
    ensures ReplaceFirst(lead + "SELECT" + cols + "FROM" + rest, "SELECT", "FROM", true, "SELECT COUNT(*) as total FROM")
      == lead + "SELECT COUNT(*) as total FROM" + rest
  {
    RewriteFindsFirstClose(lead, "SELECT", cols, "FROM", rest, "SELECT COUNT(*) as total FROM");
  }

  /** GET /doctors/:id: a doctor id `parseInt` cannot read is refused with 400
      before any query; otherwise the id is looked up. */
  datatype DoctorLookup = BadDoctorId | LookUp(id: int)

  function CheckDoctorId(idText: string): (r: DoctorLookup)
    ensures r.BadDoctorId? <==> ParseInt(idText).None?
    ensures r.LookUp? ==> Some(r.id) == ParseInt(idText)
  {
    var p := ParseInt(idText);
    if p.None? then BadDoctorId else LookUp(p.value)
  }

  /** Ids that `toString` writes are accepted; text without a digit is refused. */
  lemma DoctorIdCheck(n: nat, junk: string)
    requires forall i :: 0 <= i < |junk| ==> !IsDigit(junk[i])
    ensures CheckDoctorId(DecimalText(n)) == LookUp(n)
    ensures CheckDoctorId(junk) == BadDoctorId
  {
    ParseIntOfDecimalText(n);
    ParseIntWithoutDigits(junk);
  }
}
