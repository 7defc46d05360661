/** src/controllers/appointmentController.js: booking an appointment, the
    administrator's status update with its e-mail, cancelling, and the
    per-status counts of the appointment list. */
module AppointmentController {
  import opened Js
  import opened TimeUtils
  import opened Schema
  import opened EmailTemplates
  import DoctorController

  // ---------------------------------------------------------------------
  // Booking

  /** The body of POST /appointments. `date` is the day `new Date(date)`
      names, or None when it is an invalid date. */
  datatype BookingRequest = BookingRequest(
    doctorId: int,
    date: Option<Day>,
    timeSlotId: int,
    appointmentType: string,
    patientProblem: string,
    patientAge: int,
    patientGender: string)

  datatype BookingReply =
    | InvalidDate    // `toISOString()` throws on an invalid date: 500
    | NotAvailable   // 400 "This time slot is not available"
    | AlreadyBooked  // 400 "This time slot is already booked"
    | Booked(appointment: Appointment)

  /** An appointment the double-booking guard counts: any status except
      `cancelled` and `rejected`. */
  predicate Holds(a: Appointment, doc: int, d: Day, slotId: int) {
    a.doctorId == doc && a.date == d && a.timeSlotId == slotId
    && a.status != "cancelled" && a.status != "rejected"
  }

  predicate Taken(apps: seq<Appointment>, doc: int, d: Day, slotId: int) {
    exists a :: a in apps && Holds(a, doc, d, slotId)
  }

  /** `SELECT COUNT(*) FROM appointments WHERE doctor_id = $1 AND appointment_date = $2
      AND time_slot_id = $3 AND status NOT IN ('cancelled', 'rejected')` */
  function CountHolding(apps: seq<Appointment>, doc: int, d: Day, slotId: int): nat {
    if apps == [] then 0
    else (if Holds(apps[0], doc, d, slotId) then 1 else 0) + CountHolding(apps[1..], doc, d, slotId)
  }

  /** The count is positive exactly when some appointment holds the slot. */
  lemma {:induction false} CountHoldingPositive(apps: seq<Appointment>, doc: int, d: Day, slotId: int)
    ensures CountHolding(apps, doc, d, slotId) > 0 <==> Taken(apps, doc, d, slotId)
    decreases |apps|
  {
    if apps != [] {
      CountHoldingPositive(apps[1..], doc, d, slotId);
      if Taken(apps, doc, d, slotId) && !Holds(apps[0], doc, d, slotId) {
        var a :| a in apps && Holds(a, doc, d, slotId);
        assert a in apps[1..];
      }
      if Taken(apps[1..], doc, d, slotId) {
        var a :| a in apps[1..] && Holds(a, doc, d, slotId);
        assert a in apps;
      }
    }
  }

  /** The row the insert adds: the caller as patient, the normalised date, `pending`. */
  function NewAppointment(t: Tables, patientId: int, req: BookingRequest, d: Day): Appointment {
    Appointment(t.nextAppointmentId, patientId, req.doctorId, d, req.timeSlotId, req.appointmentType,
      "pending", req.patientProblem, req.patientAge, req.patientGender, None)
  }

  /** The booking guards and the insert, with the rule looked up under the weekday `w`. */
  function Admit(t: Tables, patientId: int, req: BookingRequest, d: Day, w: int): Handled<BookingReply> {
    if Rule(req.doctorId, w, req.timeSlotId, true) !in t.availability then Handled(NotAvailable, t)
    else if CountHolding(t.appointments, req.doctorId, d, req.timeSlotId) > 0 then Handled(AlreadyBooked, t)
    else
      var a := NewAppointment(t, patientId, req, d);
      Handled(Booked(a), t.(appointments := t.appointments + [a], nextAppointmentId := a.id + 1))
  }

  /** createAppointment as written: the rule is looked up under `getDay()`, Sunday 0. */
  function Book(t: Tables, patientId: int, req: BookingRequest): Handled<BookingReply> {
    if req.date.None? then Handled(InvalidDate, t)
    else Admit(t, patientId, req, req.date.value, JsGetDay(req.date.value))
  }

  /** createAppointment, step by step against the database. */
  method CreateAppointment(db: Database, patientId: int, req: BookingRequest) returns (reply: BookingReply)
    modifies db
    ensures Handled(reply, db.Snapshot()) == Book(old(db.Snapshot()), patientId, req)
  {
    if req.date.None? {
      return InvalidDate;
    }
    var d := req.date.value;
    var dayOfWeek := JsGetDay(d);
    if Rule(req.doctorId, dayOfWeek, req.timeSlotId, true) !in db.availability {
      return NotAvailable;
    }
    var count := CountHolding(db.appointments, req.doctorId, d, req.timeSlotId);
    if count > 0 {
      return AlreadyBooked;
    }
    var a := NewAppointment(db.Snapshot(), patientId, req, d);
    var id := db.InsertAppointment(a);
    reply := Booked(a);
  }

  /** Which reply a booking gets: each error exactly when its guard fails,
      and a booking exactly when both guards pass. */
  lemma BookReplies(t: Tables, patientId: int, req: BookingRequest)
    ensures var r := Book(t, patientId, req).reply;
      && (r == InvalidDate <==> req.date.None?)
      && (r == NotAvailable <==>
            (req.date.Some? && Rule(req.doctorId, JsGetDay(req.date.value), req.timeSlotId, true) !in t.availability))
      && (r == AlreadyBooked <==>
            (req.date.Some? && Rule(req.doctorId, JsGetDay(req.date.value), req.timeSlotId, true) in t.availability
             && Taken(t.appointments, req.doctorId, req.date.value, req.timeSlotId)))
      && (r.Booked? <==>
            (req.date.Some? && Rule(req.doctorId, JsGetDay(req.date.value), req.timeSlotId, true) in t.availability
             && !Taken(t.appointments, req.doctorId, req.date.value, req.timeSlotId)))
  {
    if req.date.Some? {
      CountHoldingPositive(t.appointments, req.doctorId, req.date.value, req.timeSlotId);
    }
  }

  /** A booking adds exactly one `pending` row for the caller and changes no
      existing row; a refused booking changes nothing. */
  lemma BookEffect(t: Tables, patientId: int, req: BookingRequest)
    ensures var h := Book(t, patientId, req);
      && (!h.reply.Booked? ==> h.tables == t)
      && (h.reply.Booked? ==>
            var a := h.reply.appointment;
            && h.tables == t.(appointments := t.appointments + [a], nextAppointmentId := t.nextAppointmentId + 1)
            && a.id == t.nextAppointmentId && a.patientId == patientId && a.status == "pending"
            && a.doctorId == req.doctorId && Some(a.date) == req.date && a.timeSlotId == req.timeSlotId
            && h.tables.appointments[..|t.appointments|] == t.appointments)
  {
    var h := Book(t, patientId, req);
    if h.reply.Booked? {
      assert (t.appointments + [h.reply.appointment])[..|t.appointments|] == t.appointments;
    }
  }

  /** Repeating a successful booking is refused as already booked. */
  lemma RepeatBookingFails(t: Tables, patientId: int, other: int, req: BookingRequest)
    requires Book(t, patientId, req).reply.Booked?
    ensures Book(Book(t, patientId, req).tables, other, req).reply == AlreadyBooked
  {
    var h := Book(t, patientId, req);
    var a := h.reply.appointment;
    assert a in h.tables.appointments;
    BookReplies(h.tables, other, req);
  }

  // ---------------------------------------------------------------------
  // Cancelling

  datatype CancelReply =
    | CancelFailed       // `parseInt` gave NaN and the query fails: 500
    | CancelNotFound     // 404 "Appointment not found"
    | Cancelled(id: int)

  /** cancelAppointment: `now` is CURRENT_TIMESTAMP. */
  function Cancel(t: Tables, idText: string, now: int): Handled<CancelReply> {
    var id := ParseInt(idText);
    if id.None? then Handled(CancelFailed, t)
    else if !HasAppointment(t.appointments, id.value) then Handled(CancelNotFound, t)
    else Handled(Cancelled(id.value), t.(appointments := SetStatus(t.appointments, id.value, "cancelled", Some(now))))
  }

  method CancelAppointment(db: Database, idText: string, now: int) returns (reply: CancelReply)
    modifies db
    ensures Handled(reply, db.Snapshot()) == Cancel(old(db.Snapshot()), idText, now)
  {
    var id := ParseInt(idText);
    if id.None? {
      return CancelFailed;
    }
    var found := db.UpdateStatus(id.value, "cancelled", Some(now));
    if !found {
      return CancelNotFound;
    }
    reply := Cancelled(id.value);
  }

  /** Cancel is unconditional: whatever its status, an existing appointment
      ends up `cancelled`, stamped, and no other row changes; an unknown id is 404. */
  lemma CancelAnyStatus(t: Tables, idText: string, now: int)
    requires ParseInt(idText).Some?
    ensures var id := ParseInt(idText).value;
      var h := Cancel(t, idText, now);
      && (h.reply == CancelNotFound <==> !HasAppointment(t.appointments, id))
      && (h.reply == Cancelled(id) <==> HasAppointment(t.appointments, id))
      && |h.tables.appointments| == |t.appointments|
      && forall i :: 0 <= i < |t.appointments| ==>
           if t.appointments[i].id == id && h.reply.Cancelled?
           then h.tables.appointments[i] == t.appointments[i].(status := "cancelled", updatedAt := Some(now))
           else h.tables.appointments[i] == t.appointments[i]
  {
  }

  /** Cancelling an appointment releases its slot: after a booking and its
      cancellation the same booking is admitted again. */
  lemma CancelThenRebook(t: Tables, patientId: int, req: BookingRequest, idText: string, now: int)
    requires Book(t, patientId, req).reply.Booked?
    requires ParseInt(idText) == Some(Book(t, patientId, req).reply.appointment.id)
    ensures var t1 := Book(t, patientId, req).tables;
      var t2 := Cancel(t1, idText, now).tables;
      Book(t2, patientId, req).reply.Booked?
  {
    var h := Book(t, patientId, req);
    var a := h.reply.appointment;
    var d := req.date.value;
    BookReplies(t, patientId, req);
    var t1 := h.tables;
    assert a in t1.appointments;
    var t2 := Cancel(t1, idText, now).tables;
    assert t2.appointments == SetStatus(t1.appointments, a.id, "cancelled", Some(now));
    forall b | b in t2.appointments
      ensures !Holds(b, req.doctorId, d, req.timeSlotId)
    {
      var i :| 0 <= i < |t2.appointments| && t2.appointments[i] == b;
      if t1.appointments[i].id != a.id {
        if i < |t.appointments| {
          assert t1.appointments[i] == t.appointments[i];
          assert t.appointments[i] in t.appointments;
        }
      }
    }
    BookReplies(t2, patientId, req);
  }

  // ---------------------------------------------------------------------
  // The weekday of a booking

  /** The stored rules use the weekdays 1..7, Sunday 7. */
  predicate StoredWeekdays(t: Tables) {
    forall r :: r in t.availability ==> 1 <= r.dayOfWeek <= 7
  }

  /** With rules stored as 1..7, no Sunday can be booked: `getDay()` gives 0 there. */
  lemma SundayNeverBookable(t: Tables, patientId: int, req: BookingRequest)
    requires StoredWeekdays(t)
    requires req.date.Some? && JsGetDay(req.date.value) == 0
    ensures Book(t, patientId, req).reply == NotAvailable
  {
  }

  /** Day 3, 1970-01-04, is a Sunday: the view files it under weekday 7 and the booking under 0. */
  lemma SundayWeekdays()
    ensures JsGetDay(3) == 0 && DoctorController.ViewWeekday(3) == 7
  {
  }

  /** A Sunday slot the availability window offers is refused when booked. */
  lemma SundayShownButRefused(t: Tables, doc: int, start: Day, k: int, i: int, patientId: int, req: BookingRequest)
    requires StoredWeekdays(t)
    requires 0 <= k < 15 && JsGetDay(start + k) == 0
    requires 0 <= i < |DoctorController.Window(t, doc, start)[k].timeSlots|
    requires req.doctorId == doc && req.date == Some(start + k)
    requires req.timeSlotId == DoctorController.Window(t, doc, start)[k].timeSlots[i].id
    ensures DoctorController.ViewWeekday(start + k) == 7
    ensures Book(t, patientId, req).reply == NotAvailable
  {
  }

  /** The booking with the view's weekday convention, Sunday 7. */
  function BookCorrected(t: Tables, patientId: int, req: BookingRequest): Handled<BookingReply> {
    if req.date.None? then Handled(InvalidDate, t)
    else Admit(t, patientId, req, req.date.value, DoctorController.ViewWeekday(req.date.value))
  }

  /** Off Sundays the correction changes nothing. */
  lemma CorrectedAgreesOffSunday(t: Tables, patientId: int, req: BookingRequest)
    requires req.date.Some? ==> JsGetDay(req.date.value) != 0
    ensures BookCorrected(t, patientId, req) == Book(t, patientId, req)
  {
  }

  /** Every slot the availability window offers as available before its last
      day is admitted by the corrected booking, Sundays included. */
  lemma OfferedSlotIsBookable(t: Tables, doc: int, start: Day, k: int, i: int, patientId: int, req: BookingRequest)
    requires 0 <= k < 14
    requires 0 <= i < |DoctorController.Window(t, doc, start)[k].timeSlots|
    requires DoctorController.Window(t, doc, start)[k].timeSlots[i].isAvailable
    requires req.doctorId == doc && req.date == Some(start + k)
    requires req.timeSlotId == DoctorController.Window(t, doc, start)[k].timeSlots[i].id
    ensures BookCorrected(t, patientId, req).reply.Booked?
  {
    var d := start + k;
    var id := DoctorController.Window(t, doc, start)[k].timeSlots[i].id;
    DoctorController.ShownSlotHasRule(t, doc, start, k, i);
    DoctorController.BookedMarking(t, doc, start, k, i);
    UnblockedNotTaken(t.appointments, doc, d, id);
  }

  /** A slot no appointment blocks in the view is not taken for booking either. */
  lemma UnblockedNotTaken(apps: seq<Appointment>, doc: int, d: Day, slotId: int)
    requires !exists a :: a in apps && DoctorController.ViewBlocks(a, doc, d, slotId)
    ensures CountHolding(apps, doc, d, slotId) == 0
  {
    CountHoldingPositive(apps, doc, d, slotId);
  }

  /** A `rejected` appointment blocks its slot in the window but not in the
      double-booking guard: the slot is shown booked, yet the count is 0. */
  lemma RejectedBlocksViewOnly(t: Tables, doc: int, start: Day, k: int, i: int, r: Appointment)
    requires 0 <= k < 14
    requires 0 <= i < |DoctorController.Window(t, doc, start)[k].timeSlots|
    requires var id := DoctorController.Window(t, doc, start)[k].timeSlots[i].id;
      && r in t.appointments && r.status == "rejected" && DoctorController.ViewBlocks(r, doc, start + k, id)
      && forall a :: a in t.appointments && DoctorController.ViewBlocks(a, doc, start + k, id) ==> a.status == "rejected"
    ensures var id := DoctorController.Window(t, doc, start)[k].timeSlots[i].id;
      && !DoctorController.Window(t, doc, start)[k].timeSlots[i].isAvailable
      && CountHolding(t.appointments, doc, start + k, id) == 0
  {
    var id := DoctorController.Window(t, doc, start)[k].timeSlots[i].id;
    DoctorController.BookedMarking(t, doc, start, k, i);
    CountHoldingPositive(t.appointments, doc, start + k, id);
  }

  // ---------------------------------------------------------------------
  // The administrator's status update

  /** `['confirmed', 'cancelled', 'pending', 'completed'].includes(status)` */
  predicate AdminStatus(status: string) {
    status in ["confirmed", "cancelled", "pending", "completed"]
  }

  datatype EmailStatus = Sent | Failed

  datatype StatusReply =
    | InvalidStatus               // 400 "Invalid status value"
    | StatusFailed                // the id is not an integer and the query fails: 500
    | StatusNotFound              // 404 "Appointment not found"
    | CompletedNeedsConfirmed     // 400 "Only confirmed appointments can be marked as completed"
    | StatusUpdated(emailStatus: EmailStatus)

  /** A message handed to the mail service. */
  datatype Mail = Mail(to: string, subject: string, html: string)

  /** A LEFT JOIN column that may be NULL, as a template literal writes it. */
  function OrNull(v: Option<string>): string {
    if v.Some? then v.value else "null"
  }

  function UserName(t: Tables, id: int): Option<string> {
    var u := FindUser(t.users, id);
    if u.Some? then Some(u.value.name) else None
  }

  /** The joined row the template reads; `localeDate` is `toLocaleDateString()`. */
  function Facts(t: Tables, a: Appointment, localeDate: Day -> string): AppointmentFacts {
    var d := FindDoctor(t.doctors, a.doctorId);
    var slot := FindSlot(t.timeSlots, a.timeSlotId);
    var specialty := if d.Some? then FindSpecialty(t.specialties, d.value.specialtyId) else None;
    AppointmentFacts(
      OrNull(UserName(t, a.patientId)),
      OrNull(if d.Some? then UserName(t, d.value.userId) else None),
      localeDate(a.date),
      OrNull(if slot.Some? then Some(PgText(slot.value.startTime)) else None),
      OrNull(if slot.Some? then Some(PgText(slot.value.endTime)) else None),
      OrNull(if specialty.Some? then Some(specialty.value.name) else None))
  }

  /** `appointment.patient_email` when it is truthy. */
  function PatientEmail(t: Tables, a: Appointment): Option<string> {
    var u := FindUser(t.users, a.patientId);
    if u.Some? && u.value.email.Some? && u.value.email.value != "" then u.value.email else None
  }

  /** The message sent after an update, or None when the patient has no e-mail. */
  function StatusMail(t: Tables, id: int, status: string, localeDate: Day -> string): Option<Mail> {
    var a := FindAppointment(t.appointments, id);
    if a.None? then None
    else
      var to := PatientEmail(t, a.value);
      if to.None? then None
      else
        var m := StatusTemplate(Facts(t, a.value, localeDate), status);
        Some(Mail(to.value, m.subject, m.html))
  }

  /** updateAppointmentStatus in appointmentController.js. `id` is the route
      parameter as the database reads it (None when it is not an integer),
      `now` is CURRENT_TIMESTAMP and `delivered` the outcome of `sendEmail`. */
  function UpdateStatus(t: Tables, id: Option<int>, status: string, now: int, delivered: bool,
                        localeDate: Day -> string): Handled<StatusReply> {
    if !AdminStatus(status) then Handled(InvalidStatus, t)
    else if id.None? then Handled(StatusFailed, t)
    else
      var current := FindAppointment(t.appointments, id.value);
      if current.None? then Handled(StatusNotFound, t)
      else if status == "completed" && current.value.status != "confirmed" then Handled(CompletedNeedsConfirmed, t)
      else
        var t' := t.(appointments := SetStatus(t.appointments, id.value, status, Some(now)));
        var sent := StatusMail(t', id.value, status, localeDate).Some? && delivered;
        Handled(StatusUpdated(if sent then Sent else Failed), t')
  }

  method UpdateAppointmentStatus(db: Database, id: Option<int>, status: string, now: int, delivered: bool,
                                 localeDate: Day -> string) returns (reply: StatusReply, mail: Option<Mail>)
    modifies db
    ensures Handled(reply, db.Snapshot()) == UpdateStatus(old(db.Snapshot()), id, status, now, delivered, localeDate)
    ensures mail == if reply.StatusUpdated? then StatusMail(db.Snapshot(), id.value, status, localeDate) else None
  {
    mail := None;
    if !AdminStatus(status) {
      return InvalidStatus, None;
    }
    var saved := db.Snapshot();
    if id.None? {
      db.Rollback(saved);
      return StatusFailed, None;
    }
    var current := FindAppointment(db.appointments, id.value);
    if current.None? {
      db.Rollback(saved);
      return StatusNotFound, None;
    }
    if status == "completed" && current.value.status != "confirmed" {
      db.Rollback(saved);
      return CompletedNeedsConfirmed, None;
    }
    var found := db.UpdateStatus(id.value, status, Some(now));
    var emailFailed := false;
    var to := PatientEmail(db.Snapshot(), FindAppointment(db.appointments, id.value).value);
    if to.None? {
      emailFailed := true;
    } else {
      mail := StatusMail(db.Snapshot(), id.value, status, localeDate);
      emailFailed := !delivered;
    }
    reply := StatusUpdated(if emailFailed then Failed else Sent);
  }

  /** A status outside the four is refused and nothing changes. */
  lemma UnknownStatusRefused(t: Tables, id: Option<int>, status: string, now: int, delivered: bool, localeDate: Day -> string)
    requires !AdminStatus(status)
    ensures UpdateStatus(t, id, status, now, delivered, localeDate) == Handled(InvalidStatus, t)
  {
  }

  /** The only transition rule: an update is applied exactly when the status is
      one of the four, the appointment exists, and `completed` comes from
      `confirmed`; every other change among the four, leaving a cancelled or
      completed appointment included, is applied. */
  lemma StatusTransitions(t: Tables, id: int, status: string, now: int, delivered: bool, localeDate: Day -> string)
    ensures var h := UpdateStatus(t, Some(id), status, now, delivered, localeDate);
      && (h.reply.StatusUpdated? <==>
            AdminStatus(status) && HasAppointment(t.appointments, id)
            && (status == "completed" ==> FindAppointment(t.appointments, id).value.status == "confirmed"))
      && (h.reply.StatusUpdated? ==> h.tables == t.(appointments := SetStatus(t.appointments, id, status, Some(now))))
      && (!h.reply.StatusUpdated? ==> h.tables == t)
      && (h.reply == CompletedNeedsConfirmed <==>
            AdminStatus(status) && HasAppointment(t.appointments, id) && status == "completed"
            && FindAppointment(t.appointments, id).value.status != "confirmed")
  {
  }

  /** Once updated, every row with the id carries the new status. */
  lemma UpdatedRowsCarryStatus(t: Tables, id: int, status: string, now: int, delivered: bool, localeDate: Day -> string)
    requires UpdateStatus(t, Some(id), status, now, delivered, localeDate).reply.StatusUpdated?
    ensures var after := UpdateStatus(t, Some(id), status, now, delivered, localeDate).tables.appointments;
      forall a :: a in after && a.id == id ==> a.status == status && a.updatedAt == Some(now)
  {
    var after := UpdateStatus(t, Some(id), status, now, delivered, localeDate).tables.appointments;
    forall a | a in after && a.id == id
      ensures a.status == status && a.updatedAt == Some(now)
    {
      var i :| 0 <= i < |after| && after[i] == a;
    }
  }

  /** The e-mail never decides the outcome: the update commits whether or not
      the message goes out, and the report says `sent` exactly when the
      patient has an address and the service accepted the message. */
  lemma EmailSoftFailure(t: Tables, id: int, status: string, now: int, localeDate: Day -> string)
    ensures var ok := UpdateStatus(t, Some(id), status, now, true, localeDate);
      var failed := UpdateStatus(t, Some(id), status, now, false, localeDate);
      && ok.tables == failed.tables
      && ok.reply.StatusUpdated? == failed.reply.StatusUpdated?
      && (failed.reply.StatusUpdated? ==> failed.reply.emailStatus == Failed)
      && (ok.reply.StatusUpdated? ==>
            (ok.reply.emailStatus == Sent <==> StatusMail(ok.tables, id, status, localeDate).Some?))
  {
  }

  /** The message goes to the patient's address, with the subject of the new
      status, and its body names the patient and the doctor. */
  lemma StatusMailContents(t: Tables, id: int, status: string, localeDate: Day -> string)
    requires StatusMail(t, id, status, localeDate).Some?
    ensures var m := StatusMail(t, id, status, localeDate).value;
      var a := FindAppointment(t.appointments, id).value;
      && Some(m.to) == PatientEmail(t, a) && m.to != ""
      && m.subject == SubjectFor(status)
      && Contains(m.html, Facts(t, a, localeDate).patientName)
      && Contains(m.html, Facts(t, a, localeDate).doctorName)
  {
    var a := FindAppointment(t.appointments, id).value;
    BodyNamesParties(Facts(t, a, localeDate), status);
  }

  // ---------------------------------------------------------------------
  // The counts of getAllAppointments

  /** `appointments.filter(app => app.status === status).length` */
  function CountStatus(apps: seq<Appointment>, status: string): (n: nat)
    ensures n <= |apps|
  {
    if apps == [] then 0 else (if apps[0].status == status then 1 else 0) + CountStatus(apps[1..], status)
  }

  datatype AppointmentStats = AppointmentStats(total: nat, confirmed: nat, pending: nat, cancelled: nat, completed: nat)

  function Stats(apps: seq<Appointment>): AppointmentStats {
    AppointmentStats(|apps|, CountStatus(apps, "confirmed"), CountStatus(apps, "pending"),
      CountStatus(apps, "cancelled"), CountStatus(apps, "completed"))
  }

  /** The rows whose status is none of the four counted ones. */
  function CountOther(apps: seq<Appointment>): nat {
    if apps == [] then 0
    else (if AdminStatus(apps[0].status) then 0 else 1) + CountOther(apps[1..])
  }

  /** The four counts and the uncounted rows add up to the total. */
  lemma {:induction false} StatsPartition(apps: seq<Appointment>)
    ensures var s := Stats(apps);
      s.confirmed + s.pending + s.cancelled + s.completed + CountOther(apps) == s.total
    decreases |apps|
  {
    if apps != [] {
      StatsPartition(apps[1..]);
    }
  }
}
