/** The tables the controllers read and write, and the SQL statements they
    issue against them, as in-memory state: each table is a sequence of rows,
    each serial column a counter. */
module Schema {
  import opened Js
  import opened TimeUtils

  /** A calendar date as a day number: days since 1970-01-01, which was a Thursday. */
  type Day = int

  /** `Date.prototype.getDay()`: 0 is Sunday, 6 is Saturday. */
  function JsGetDay(d: Day): (w: int)
    ensures 0 <= w < 7
  {
    (d + 4) % 7
  }

  datatype User = User(id: int, name: string, email: Option<string>, password: string, role: string)

  datatype Specialty = Specialty(id: int, name: string)

  /** An average kept as the sum and the number of the values averaged, so
      that `AVG(rating)` needs no real arithmetic; the empty mean stands for
      the 0 a new doctor starts with. */
  datatype Mean = Mean(sum: int, count: nat)

  const NoRating := Mean(0, 0)

  datatype Doctor = Doctor(
    id: int,
    userId: int,
    specialtyId: int,
    degree: string,
    experienceYears: int,
    bio: Option<string>,
    locationId: Option<int>,
    consultationFee: Option<int>,
    isAvailable: bool,
    avgRating: Mean,
    reviewCount: int)

  datatype TimeSlot = TimeSlot(id: int, startTime: Clock, endTime: Clock)

  /** A row of doctor_availability; `dayOfWeek` is stored as 1..7 with Sunday 7. */
  datatype Rule = Rule(doctorId: int, dayOfWeek: int, timeSlotId: int, isAvailable: bool)

  datatype Appointment = Appointment(
    id: int,
    patientId: int,
    doctorId: int,
    date: Day,
    timeSlotId: int,
    appointmentType: string,
    status: string,
    patientProblem: string,
    patientAge: int,
    patientGender: string,
    updatedAt: Option<int>)

  datatype Review = Review(id: int, doctorId: int, patientId: int, rating: int, comment: string)

  /** A snapshot of the whole database: the tables and the next value of each
      serial sequence. */
  datatype Tables = Tables(
    users: seq<User>,
    specialties: seq<Specialty>,
    doctors: seq<Doctor>,
    timeSlots: seq<TimeSlot>,
    availability: seq<Rule>,
    appointments: seq<Appointment>,
    reviews: seq<Review>,
    nextUserId: int,
    nextDoctorId: int,
    nextAppointmentId: int,
    nextReviewId: int)

  /** What a handler answers, and the tables it leaves behind. */
  datatype Handled<R> = Handled(reply: R, tables: Tables)

  /** The rows of `s` that `keep` accepts, in their order: a `DELETE` keeps the complement. */
  function Filter<T(!new)>(s: seq<T>, keep: T -> bool): (r: seq<T>)
    ensures |r| <= |s|
    ensures forall x :: x in r <==> x in s && keep(x)
  {
    if s == [] then [] else (if keep(s[0]) then [s[0]] else []) + Filter(s[1..], keep)
  }

  /** `UPDATE appointments SET status = ...[, updated_at = ...] WHERE id = ...`:
      every row with that id gets the new status (and the new stamp when one is
      given); every other row is left as it is. */
  function SetStatus(apps: seq<Appointment>, id: int, status: string, stamp: Option<int>): (r: seq<Appointment>)
    ensures |r| == |apps|
    ensures forall i :: 0 <= i < |r| ==>
      r[i] == if apps[i].id == id
              then apps[i].(status := status, updatedAt := if stamp.Some? then stamp else apps[i].updatedAt)
              else apps[i]
  {
    if apps == [] then []
    else
      var a := apps[0];
      [if a.id == id then a.(status := status, updatedAt := if stamp.Some? then stamp else a.updatedAt) else a]
      + SetStatus(apps[1..], id, status, stamp)
  }

  /** `UPDATE doctors SET ... WHERE id = ...`, the new row computed from the old by `f`. */
  function UpdateDoctors(docs: seq<Doctor>, id: int, f: Doctor -> Doctor): (r: seq<Doctor>)
    ensures |r| == |docs|
    ensures forall i :: 0 <= i < |r| ==> r[i] == if docs[i].id == id then f(docs[i]) else docs[i]
  {
    if docs == [] then [] else [if docs[0].id == id then f(docs[0]) else docs[0]] + UpdateDoctors(docs[1..], id, f)
  }

  function UpdateUsers(users: seq<User>, id: int, f: User -> User): (r: seq<User>)
    ensures |r| == |users|
    ensures forall i :: 0 <= i < |r| ==> r[i] == if users[i].id == id then f(users[i]) else users[i]
  {
    if users == [] then [] else [if users[0].id == id then f(users[0]) else users[0]] + UpdateUsers(users[1..], id, f)
  }

  predicate HasAppointment(apps: seq<Appointment>, id: int) {
    exists i :: 0 <= i < |apps| && apps[i].id == id
  }

  predicate HasDoctor(docs: seq<Doctor>, id: int) {
    exists i :: 0 <= i < |docs| && docs[i].id == id
  }

  /** The first doctor row with that id (`SELECT ... FROM doctors WHERE id = $1`, `rows[0]`). */
  function FindDoctor(docs: seq<Doctor>, id: int): (r: Option<Doctor>)
    ensures r.Some? <==> HasDoctor(docs, id)
    ensures r.Some? ==> r.value in docs && r.value.id == id
  {
    if docs == [] then None
    else if docs[0].id == id then Some(docs[0])
    else
      var r := FindDoctor(docs[1..], id);
      assert HasDoctor(docs, id) ==> docs[0].id == id || HasDoctor(docs[1..], id) by {
        if HasDoctor(docs, id) {
          var i :| 0 <= i < |docs| && docs[i].id == id;
          if i > 0 { assert docs[1..][i - 1].id == id; }
        }
      }
      r
  }

  /** The first appointment row with that id. */
  function FindAppointment(apps: seq<Appointment>, id: int): (r: Option<Appointment>)
    ensures r.Some? <==> HasAppointment(apps, id)
    ensures r.Some? ==> r.value in apps && r.value.id == id
  {
    if apps == [] then None
    else if apps[0].id == id then Some(apps[0])
    else
      var r := FindAppointment(apps[1..], id);
      assert HasAppointment(apps, id) ==> apps[0].id == id || HasAppointment(apps[1..], id) by {
        if HasAppointment(apps, id) {
          var i :| 0 <= i < |apps| && apps[i].id == id;
          if i > 0 { assert apps[1..][i - 1].id == id; }
        }
      }
      r
  }

  function FindUser(users: seq<User>, id: int): (r: Option<User>)
    ensures r.Some? ==> r.value in users && r.value.id == id
    ensures r.None? ==> forall u :: u in users ==> u.id != id
  {
    if users == [] then None
    else if users[0].id == id then Some(users[0])
    else FindUser(users[1..], id)
  }

  function FindSpecialty(specialties: seq<Specialty>, id: int): (r: Option<Specialty>)
    ensures r.Some? ==> r.value in specialties && r.value.id == id
  {
    if specialties == [] then None
    else if specialties[0].id == id then Some(specialties[0])
    else FindSpecialty(specialties[1..], id)
  }

  function FindSlot(slots: seq<TimeSlot>, id: int): (r: Option<TimeSlot>)
    ensures r.Some? ==> r.value in slots && r.value.id == id
  {
    if slots == [] then None
    else if slots[0].id == id then Some(slots[0])
    else FindSlot(slots[1..], id)
  }

  predicate EmailTaken(users: seq<User>, email: string) {
    exists u :: u in users && u.email == Some(email)
  }

  /** The database the handlers share, one field per table. */
  class Database {
    var users: seq<User>
    var specialties: seq<Specialty>
    var doctors: seq<Doctor>
    var timeSlots: seq<TimeSlot>
    var availability: seq<Rule>
    var appointments: seq<Appointment>
    var reviews: seq<Review>
    var nextUserId: int
    var nextDoctorId: int
    var nextAppointmentId: int
    var nextReviewId: int

    constructor (t: Tables)
      ensures Snapshot() == t
    {
      users, specialties, doctors, timeSlots := t.users, t.specialties, t.doctors, t.timeSlots;
      availability, appointments, reviews := t.availability, t.appointments, t.reviews;
      nextUserId, nextDoctorId, nextAppointmentId, nextReviewId :=
        t.nextUserId, t.nextDoctorId, t.nextAppointmentId, t.nextReviewId;
    }

    function Snapshot(): Tables
      reads this
    {
      Tables(users, specialties, doctors, timeSlots, availability, appointments, reviews,
        nextUserId, nextDoctorId, nextAppointmentId, nextReviewId)
    }

    /** `ROLLBACK`: every table returns to the saved snapshot; the serial
        sequences keep the values they have reached, as PostgreSQL sequences do. */
    method Rollback(saved: Tables)
      modifies this
      ensures Snapshot() == saved.(nextUserId := old(nextUserId), nextDoctorId := old(nextDoctorId),
        nextAppointmentId := old(nextAppointmentId), nextReviewId := old(nextReviewId))
    {
      users, specialties, doctors, timeSlots := saved.users, saved.specialties, saved.doctors, saved.timeSlots;
      availability, appointments, reviews := saved.availability, saved.appointments, saved.reviews;
    }

    /** `INSERT INTO users ... RETURNING id` */
    method InsertUser(name: string, email: string, password: string, role: string) returns (id: int)
      modifies this
      ensures id == old(nextUserId)
      ensures Snapshot() == old(Snapshot()).(users := old(users) + [User(id, name, Some(email), password, role)],
        nextUserId := id + 1)
    {
      id := nextUserId;
      users := users + [User(id, name, Some(email), password, role)];
      nextUserId := nextUserId + 1;
    }

    /** `INSERT INTO doctors ... RETURNING id` */
    method InsertDoctor(d: Doctor) returns (id: int)
      modifies this
      ensures id == old(nextDoctorId)
      ensures Snapshot() == old(Snapshot()).(doctors := old(doctors) + [d.(id := id)], nextDoctorId := id + 1)
    {
      id := nextDoctorId;
      doctors := doctors + [d.(id := id)];
      nextDoctorId := nextDoctorId + 1;
    }

    /** `INSERT INTO doctor_availability ... VALUES ...` with at least one row;
        an empty VALUES list is a syntax error and inserts nothing. */
    method InsertRules(rows: seq<Rule>) returns (ok: bool)
      modifies this
      ensures ok == (rows != [])
      ensures Snapshot() == old(Snapshot()).(availability := old(availability) + rows)
    {
      ok := rows != [];
      availability := availability + rows;
    }

    /** `INSERT INTO appointments ... RETURNING *` */
    method InsertAppointment(a: Appointment) returns (id: int)
      modifies this
      ensures id == old(nextAppointmentId)
      ensures Snapshot() == old(Snapshot()).(appointments := old(appointments) + [a.(id := id)],
        nextAppointmentId := id + 1)
    {
      id := nextAppointmentId;
      appointments := appointments + [a.(id := id)];
      nextAppointmentId := nextAppointmentId + 1;
    }

    /** `INSERT INTO reviews ... RETURNING ...` */
    method InsertReview(doctorId: int, patientId: int, rating: int, comment: string) returns (id: int)
      modifies this
      ensures id == old(nextReviewId)
      ensures Snapshot() == old(Snapshot()).(reviews := old(reviews) + [Review(id, doctorId, patientId, rating, comment)],
        nextReviewId := id + 1)
    {
      id := nextReviewId;
      reviews := reviews + [Review(id, doctorId, patientId, rating, comment)];
      nextReviewId := nextReviewId + 1;
    }

    /** `UPDATE appointments SET status = ... WHERE id = ... RETURNING ...`;
        `found` tells whether a row was returned. */
    method UpdateStatus(id: int, status: string, stamp: Option<int>) returns (found: bool)
      modifies this
      ensures found == HasAppointment(old(appointments), id)
      ensures Snapshot() == old(Snapshot()).(appointments := SetStatus(old(appointments), id, status, stamp))
    {
      found := FindAppointment(appointments, id).Some?;
      appointments := SetStatus(appointments, id, status, stamp);
    }

    /** `UPDATE doctors SET ... WHERE id = ... [RETURNING id]` */
    method UpdateDoctor(id: int, f: Doctor -> Doctor) returns (found: bool)
      modifies this
      ensures found == HasDoctor(old(doctors), id)
      ensures Snapshot() == old(Snapshot()).(doctors := UpdateDoctors(old(doctors), id, f))
    {
      found := FindDoctor(doctors, id).Some?;
      doctors := UpdateDoctors(doctors, id, f);
    }

    /** `UPDATE users SET ... WHERE id = ...` */
    method UpdateUser(id: int, f: User -> User)
      modifies this
      ensures Snapshot() == old(Snapshot()).(users := UpdateUsers(old(users), id, f))
    {
      users := UpdateUsers(users, id, f);
    }

    /** `DELETE FROM doctor_availability WHERE doctor_id = ...` */
    method DeleteRulesOf(doctorId: int)
      modifies this
      ensures Snapshot() == old(Snapshot()).(availability := Filter(old(availability), (r: Rule) => r.doctorId != doctorId))
    {
      availability := Filter(availability, (r: Rule) => r.doctorId != doctorId);
    }

    /** `DELETE FROM appointments WHERE doctor_id = ...` */
    method DeleteAppointmentsOf(doctorId: int)
      modifies this
      ensures Snapshot() == old(Snapshot()).(appointments :=
        Filter(old(appointments), (a: Appointment) => a.doctorId != doctorId))
    {
      appointments := Filter(appointments, (a: Appointment) => a.doctorId != doctorId);
    }

    /** `DELETE FROM doctors WHERE id = ...` */
    method DeleteDoctorRow(id: int)
      modifies this
      ensures Snapshot() == old(Snapshot()).(doctors := Filter(old(doctors), (d: Doctor) => d.id != id))
    {
      doctors := Filter(doctors, (d: Doctor) => d.id != id);
    }

    /** `DELETE FROM users WHERE id = ...` */
    method DeleteUserRow(id: int)
      modifies this
      ensures Snapshot() == old(Snapshot()).(users := Filter(old(users), (u: User) => u.id != id))
    {
      users := Filter(users, (u: User) => u.id != id);
    }
  }
}
