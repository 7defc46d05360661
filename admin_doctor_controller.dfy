/** src/controllers/adminDoctorController.js: creating a doctor with its
    default availability, the field merge of an update, the cascade of a
    delete, and switching a doctor's availability on or off. */
module AdminDoctorController {
  import opened Js
  import opened Schema
  import opened QueryText

  // ---------------------------------------------------------------------
  // The default availability grid

  /** One row per slot of the catalogue for `day`, in catalogue order. */
  function DayRow(doctorId: int, day: int, slots: seq<TimeSlot>): (r: seq<Rule>)
    ensures |r| == |slots|
  {
    if slots == [] then []
    else DayRow(doctorId, day, slots[..|slots| - 1]) + [Rule(doctorId, day, slots[|slots| - 1].id, true)]
  }

  /** The rows for days 1 to `n`, day by day. */
  function Grid(doctorId: int, slots: seq<TimeSlot>, n: nat): seq<Rule> {
    if n == 0 then [] else Grid(doctorId, slots, n - 1) + DayRow(doctorId, n, slots)
  }

  /** The availability a new doctor starts with: Monday (1) to Friday (5), every slot. */
  function DefaultGrid(doctorId: int, slots: seq<TimeSlot>): seq<Rule> {
    Grid(doctorId, slots, 5)
  }

  /** The nested `for` loops that fill `availabilityValues`. */
  method BuildDefaultAvailability(doctorId: int, slots: seq<TimeSlot>) returns (rows: seq<Rule>)
    ensures rows == DefaultGrid(doctorId, slots)
  {
    rows := [];
    var day := 1;
    while day <= 5
      invariant 1 <= day <= 6
      invariant rows == Grid(doctorId, slots, day - 1)
    {
      for j := 0 to |slots|
        invariant rows == Grid(doctorId, slots, day - 1) + DayRow(doctorId, day, slots[..j])
      {
        assert slots[..j + 1][..j] == slots[..j];
        rows := rows + [Rule(doctorId, day, slots[j].id, true)];
      }
      assert slots[..|slots|] == slots;
      day := day + 1;
    }
  }

  lemma {:induction false} DayRowMembers(doctorId: int, day: int, slots: seq<TimeSlot>)
    ensures forall r :: r in DayRow(doctorId, day, slots) <==>
      r.doctorId == doctorId && r.dayOfWeek == day && r.isAvailable
      && exists s :: s in slots && s.id == r.timeSlotId
    decreases |slots|
  {
    if slots != [] {
      var init := slots[..|slots| - 1];
      var last := slots[|slots| - 1];
      DayRowMembers(doctorId, day, init);
      assert slots == init + [last];
      forall r: Rule | r.doctorId == doctorId && r.dayOfWeek == day && r.isAvailable
        ensures (exists s :: s in slots && s.id == r.timeSlotId) <==>
          (exists s :: s in init && s.id == r.timeSlotId) || r.timeSlotId == last.id
      {
        if exists s :: s in slots && s.id == r.timeSlotId {
          var s :| s in slots && s.id == r.timeSlotId;
          if s != last {
            assert s in init;
          }
        }
      }
    }
  }

  /** The grid for days 1 to `n` has `n` rows per slot. */
  lemma {:induction false} GridLength(doctorId: int, slots: seq<TimeSlot>, n: nat)
    ensures |Grid(doctorId, slots, n)| == n * |slots|
    decreases n
  {
    if n > 0 {
      GridLength(doctorId, slots, n - 1);
      assert n * |slots| == (n - 1) * |slots| + |slots|;
    }
  }

  /** Its rows are all available and pair each day in 1..n with each slot of the catalogue. */
  lemma {:induction false} GridMembers(doctorId: int, slots: seq<TimeSlot>, n: nat)
    ensures forall r :: r in Grid(doctorId, slots, n) <==>
      r.doctorId == doctorId && 1 <= r.dayOfWeek <= n && r.isAvailable
      && exists s :: s in slots && s.id == r.timeSlotId
    decreases n
  {
    if n > 0 {
      GridMembers(doctorId, slots, n - 1);
      DayRowMembers(doctorId, n, slots);
      var prev := Grid(doctorId, slots, n - 1);
      var row := DayRow(doctorId, n, slots);
      assert Grid(doctorId, slots, n) == prev + row;
      assert forall r :: r in prev + row <==> r in prev || r in row;
    }
  }

  /** The default grid: five rows per slot, days 1..5 only, none for Saturday or Sunday. */
  lemma DefaultGridShape(doctorId: int, slots: seq<TimeSlot>)
    ensures |DefaultGrid(doctorId, slots)| == 5 * |slots|
    ensures forall r :: r in DefaultGrid(doctorId, slots) ==>
      r.doctorId == doctorId && 1 <= r.dayOfWeek <= 5 && r.isAvailable
    ensures forall day, s :: 1 <= day <= 5 && s in slots ==> Rule(doctorId, day, s.id, true) in DefaultGrid(doctorId, slots)
  {
    GridLength(doctorId, slots, 5);
    GridMembers(doctorId, slots, 5);
  }

  // ---------------------------------------------------------------------
  // createDoctor

  /** The body of POST /admin/doctors; absent fields are None. */
  datatype DoctorForm = DoctorForm(
    name: Option<string>,
    email: Option<string>,
    password: Option<string>,
    specialtyId: Option<int>,
    degree: Option<string>,
    experienceYears: Option<int>,
    bio: Option<string>,
    locationId: Option<int>,
    consultationFee: Option<int>)

  /** A number field is truthy when present and not 0. */
  predicate TruthyNumber(v: Option<int>) {
    v.Some? && v.value != 0
  }

  /** `x || null` on a number field. */
  function OrNull(v: Option<int>): (r: Option<int>)
    ensures r.Some? <==> TruthyNumber(v)
    ensures r.Some? ==> r == v
  {
    if TruthyNumber(v) then v else None
  }

  /** The required fields, each tested for truthiness: an experience of 0 years counts as missing. */
  predicate Complete(f: DoctorForm) {
    Truthy(f.name) && Truthy(f.email) && Truthy(f.password) && TruthyNumber(f.specialtyId)
    && Truthy(f.degree) && TruthyNumber(f.experienceYears)
  }

  datatype CreateReply =
    | MissingFields       // 400 "Missing required fields"
    | EmailRegistered     // 400 "Email already registered"
    | CreateFailed        // an insert failed, rolled back: 500
    | Created(doctorId: int)

  /** The doctor row the insert writes; its id is assigned by the insert. */
  function NewDoctor(f: DoctorForm, userId: int): Doctor
    requires Complete(f)
  {
    Doctor(0, userId, f.specialtyId.value, f.degree.value, f.experienceYears.value, f.bio,
      OrNull(f.locationId), OrNull(f.consultationFee), true, NoRating, 0)
  }

  /** createDoctor. `hash` is bcrypt's hash of the password. The user and the
      doctor are inserted, then the default grid; an empty grid is an SQL
      error and the transaction is rolled back, though the two serial
      sequences stay advanced. */
  function CreateDoctor(t: Tables, f: DoctorForm, hash: string -> string): Handled<CreateReply> {
    if !Complete(f) then Handled(MissingFields, t)
    else if EmailTaken(t.users, f.email.value) then Handled(EmailRegistered, t)
    else
      var userId := t.nextUserId;
      var doctorId := t.nextDoctorId;
      var grid := DefaultGrid(doctorId, t.timeSlots);
      if grid == [] then
        Handled(CreateFailed, t.(nextUserId := userId + 1, nextDoctorId := doctorId + 1))
      else
        Handled(Created(doctorId), t.(
          users := t.users + [User(userId, f.name.value, Some(f.email.value), hash(f.password.value), "doctor")],
          doctors := t.doctors + [NewDoctor(f, userId).(id := doctorId)],
          availability := t.availability + grid,
          nextUserId := userId + 1,
          nextDoctorId := doctorId + 1))
  }

  method CreateDoctorHandler(db: Database, f: DoctorForm, hash: string -> string) returns (reply: CreateReply)
    modifies db
    ensures Handled(reply, db.Snapshot()) == CreateDoctor(old(db.Snapshot()), f, hash)
  {
    if !Complete(f) {
      return MissingFields;
    }
    if EmailTaken(db.users, f.email.value) {
      return EmailRegistered;
    }
    var hashed := hash(f.password.value);
    var saved := db.Snapshot();
    var userId := db.InsertUser(f.name.value, f.email.value, hashed, "doctor");
    var doctorId := db.InsertDoctor(NewDoctor(f, userId));
    var rows := BuildDefaultAvailability(doctorId, db.timeSlots);
    var ok := db.InsertRules(rows);
    if !ok {
      db.Rollback(saved);
      return CreateFailed;
    }
    reply := Created(doctorId);
  }

  /** Which reply a creation gets: each refusal exactly when its check fails,
      a failure exactly when the slot catalogue is empty. */
  lemma CreateReplies(t: Tables, f: DoctorForm, hash: string -> string)
    ensures var r := CreateDoctor(t, f, hash).reply;
      && (r == MissingFields <==> !Complete(f))
      && (r == EmailRegistered <==> Complete(f) && EmailTaken(t.users, f.email.value))
      && (r == CreateFailed <==> Complete(f) && !EmailTaken(t.users, f.email.value) && t.timeSlots == [])
      && (r.Created? <==> Complete(f) && !EmailTaken(t.users, f.email.value) && t.timeSlots != [])
  {
    DefaultGridShape(t.nextDoctorId, t.timeSlots);
  }

  /** A refused creation writes nothing; a failed one leaves every table as it was. */
  lemma CreateRefusalsWriteNothing(t: Tables, f: DoctorForm, hash: string -> string)
    ensures var h := CreateDoctor(t, f, hash);
      && (h.reply == MissingFields || h.reply == EmailRegistered ==> h.tables == t)
      && (h.reply == CreateFailed ==>
            h.tables.users == t.users && h.tables.doctors == t.doctors && h.tables.availability == t.availability)
  {
  }

  /** A new doctor starts available, unrated, with no reviews, a falsy
      location or fee stored as null, a user of role `doctor`, and the default
      grid added to the availability. */
  lemma CreatedDoctorRow(t: Tables, f: DoctorForm, hash: string -> string)
    requires CreateDoctor(t, f, hash).reply.Created?
    ensures var h := CreateDoctor(t, f, hash);
      var id := h.reply.doctorId;
      var d := h.tables.doctors[|h.tables.doctors| - 1];
      var u := h.tables.users[|h.tables.users| - 1];
      && |h.tables.doctors| == |t.doctors| + 1 && |h.tables.users| == |t.users| + 1
      && d.id == id && d.userId == u.id && u.role == "doctor" && u.email == f.email
      && d.isAvailable && d.avgRating == NoRating && d.reviewCount == 0
      && (d.locationId.Some? <==> TruthyNumber(f.locationId))
      && (d.consultationFee.Some? <==> TruthyNumber(f.consultationFee))
      && h.tables.availability == t.availability + DefaultGrid(id, t.timeSlots)
      && forall day, s :: 1 <= day <= 5 && s in t.timeSlots ==> Rule(id, day, s.id, true) in h.tables.availability
  {
    DefaultGridShape(t.nextDoctorId, t.timeSlots);
  }

  // ---------------------------------------------------------------------
  // updateDoctor

  /** The fields of PUT /admin/doctors/:id; absent or null fields are None. */
  datatype DoctorChanges = DoctorChanges(
    name: Option<string>,
    email: Option<string>,
    specialtyId: Option<int>,
    degree: Option<string>,
    experienceYears: Option<int>,
    bio: Option<string>,
    locationId: Option<int>,
    consultationFee: Option<int>)

  /** `COALESCE($n, column)`: the given value, or the old one when none is given. */
  function Coalesce<T>(v: Option<T>, current: T): T {
    if v.Some? then v.value else current
  }

  function MergeDoctor(c: DoctorChanges): Doctor -> Doctor {
    (d: Doctor) => d.(
      specialtyId := Coalesce(c.specialtyId, d.specialtyId),
      degree := Coalesce(c.degree, d.degree),
      experienceYears := Coalesce(c.experienceYears, d.experienceYears),
      bio := if c.bio.Some? then c.bio else d.bio,
      locationId := if c.locationId.Some? then c.locationId else d.locationId,
      consultationFee := if c.consultationFee.Some? then c.consultationFee else d.consultationFee)
  }

  function MergeUser(c: DoctorChanges): User -> User {
    (u: User) => u.(name := Coalesce(c.name, u.name), email := if c.email.Some? then c.email else u.email)
  }

  datatype UpdateReply = UpdateFailed | DoctorUpdated   // 500 (including "Doctor not found") | success

  /** updateDoctor: the id is read with `parseInt`; an unknown doctor throws
      and the transaction is rolled back. */
  function UpdateDoctor(t: Tables, idText: string, c: DoctorChanges): Handled<UpdateReply> {
    var id := ParseInt(idText);
    if id.None? then Handled(UpdateFailed, t)
    else
      var d := FindDoctor(t.doctors, id.value);
      if d.None? then Handled(UpdateFailed, t)
      else
        var users := if Truthy(c.name) || Truthy(c.email) then UpdateUsers(t.users, d.value.userId, MergeUser(c)) else t.users;
        Handled(DoctorUpdated, t.(users := users, doctors := UpdateDoctors(t.doctors, id.value, MergeDoctor(c))))
  }

  method UpdateDoctorHandler(db: Database, idText: string, c: DoctorChanges) returns (reply: UpdateReply)
    modifies db
    ensures Handled(reply, db.Snapshot()) == UpdateDoctor(old(db.Snapshot()), idText, c)
  {
    var id := ParseInt(idText);
    if id.None? {
      return UpdateFailed;
    }
    var saved := db.Snapshot();
    var d := FindDoctor(db.doctors, id.value);
    if d.None? {
      db.Rollback(saved);
      return UpdateFailed;
    }
    if Truthy(c.name) || Truthy(c.email) {
      db.UpdateUser(d.value.userId, MergeUser(c));
    }
    var found := db.UpdateDoctor(id.value, MergeDoctor(c));
    reply := DoctorUpdated;
  }

  /** The update is a field merge: each field of the doctor's row takes the
      given value when there is one and keeps its own otherwise, no other
      doctor changes, and the user row is written only when a truthy name or
      e-mail is given. An unknown doctor changes nothing. */
  lemma UpdateMerges(t: Tables, idText: string, c: DoctorChanges)
    ensures var h := UpdateDoctor(t, idText, c);
      && (h.reply == UpdateFailed <==> ParseInt(idText).None? || !HasDoctor(t.doctors, ParseInt(idText).value))
      && (h.reply == UpdateFailed ==> h.tables == t)
      && (h.reply == DoctorUpdated ==>
            var id := ParseInt(idText).value;
            && |h.tables.doctors| == |t.doctors|
            && (forall i :: 0 <= i < |t.doctors| ==>
                  var before, after := t.doctors[i], h.tables.doctors[i];
                  if before.id == id then
                    && after.specialtyId == Coalesce(c.specialtyId, before.specialtyId)
                    && after.degree == Coalesce(c.degree, before.degree)
                    && after.experienceYears == Coalesce(c.experienceYears, before.experienceYears)
                    && after.bio == (if c.bio.Some? then c.bio else before.bio)
                    && after.locationId == (if c.locationId.Some? then c.locationId else before.locationId)
                    && after.consultationFee == (if c.consultationFee.Some? then c.consultationFee else before.consultationFee)
                    && after.id == before.id
                    && after.userId == before.userId && after.isAvailable == before.isAvailable
                    && after.avgRating == before.avgRating && after.reviewCount == before.reviewCount
                  else after == before)
            && (!(Truthy(c.name) || Truthy(c.email)) ==> h.tables.users == t.users)
            && (Truthy(c.name) || Truthy(c.email) ==>
                  var userId := FindDoctor(t.doctors, id).value.userId;
                  && |h.tables.users| == |t.users|
                  && forall i :: 0 <= i < |t.users| ==>
                       var before, after := t.users[i], h.tables.users[i];
                       if before.id == userId then
                         && after.name == Coalesce(c.name, before.name)
                         && after.email == (if c.email.Some? then c.email else before.email)
                         && after.id == before.id && after.password == before.password && after.role == before.role
                       else after == before)
            && h.tables.(doctors := t.doctors, users := t.users) == t)
  {
  }

  // ---------------------------------------------------------------------
  // deleteDoctor

  datatype DeleteReply = DeleteFailed | DoctorDeleted   // 500 (including "Doctor not found") | success

  /** deleteDoctor: the doctor's rules, its appointments, its row and its
      user are deleted in that order. */
  function DeleteDoctor(t: Tables, idText: string): Handled<DeleteReply> {
    var id := ParseInt(idText);
    if id.None? then Handled(DeleteFailed, t)
    else
      var d := FindDoctor(t.doctors, id.value);
      if d.None? then Handled(DeleteFailed, t)
      else
        Handled(DoctorDeleted, t.(
          availability := Filter(t.availability, (r: Rule) => r.doctorId != id.value),
          appointments := Filter(t.appointments, (a: Appointment) => a.doctorId != id.value),
          doctors := Filter(t.doctors, (x: Doctor) => x.id != id.value),
          users := Filter(t.users, (u: User) => u.id != d.value.userId)))
  }

  method DeleteDoctorHandler(db: Database, idText: string) returns (reply: DeleteReply)
    modifies db
    ensures Handled(reply, db.Snapshot()) == DeleteDoctor(old(db.Snapshot()), idText)
  {
    var id := ParseInt(idText);
    if id.None? {
      return DeleteFailed;
    }
    var saved := db.Snapshot();
    var d := FindDoctor(db.doctors, id.value);
    if d.None? {
      db.Rollback(saved);
      return DeleteFailed;
    }
    db.DeleteRulesOf(id.value);
    db.DeleteAppointmentsOf(id.value);
    db.DeleteDoctorRow(id.value);
    db.DeleteUserRow(d.value.userId);
    reply := DoctorDeleted;
  }

  /** The cascade removes the doctor's rules, appointments, row and user, and
      keeps every row of anyone else; an unknown doctor changes nothing. */
  lemma DeleteCascades(t: Tables, idText: string)
    ensures var h := DeleteDoctor(t, idText);
      && (h.reply == DeleteFailed <==> ParseInt(idText).None? || !HasDoctor(t.doctors, ParseInt(idText).value))
      && (h.reply == DeleteFailed ==> h.tables == t)
      && (h.reply == DoctorDeleted ==>
            var id := ParseInt(idText).value;
            var userId := FindDoctor(t.doctors, id).value.userId;
            && (forall r :: r in h.tables.availability <==> r in t.availability && r.doctorId != id)
            && (forall a :: a in h.tables.appointments <==> a in t.appointments && a.doctorId != id)
            && (forall x :: x in h.tables.doctors <==> x in t.doctors && x.id != id)
            && (forall u :: u in h.tables.users <==> u in t.users && u.id != userId)
            && h.tables.(availability := t.availability, appointments := t.appointments,
                         doctors := t.doctors, users := t.users) == t)
  {
  }

  // ---------------------------------------------------------------------
  // toggleDoctorAvailability

  datatype ToggleReply =
    | NotBoolean       // 400 "is_available must be a boolean"
    | ToggleFailed     // `parseInt` gave NaN and the query fails: 500
    | ToggleNotFound   // 404 "Doctor not found"
    | Toggled(enabled: bool)

  function SetAvailable(b: bool): Doctor -> Doctor {
    (d: Doctor) => d.(isAvailable := b)
  }

  /** toggleDoctorAvailability; `isAvailable` is None when the body's value is not a boolean. */
  function Toggle(t: Tables, idText: string, isAvailable: Option<bool>): Handled<ToggleReply> {
    if isAvailable.None? then Handled(NotBoolean, t)
    else
      var id := ParseInt(idText);
      if id.None? then Handled(ToggleFailed, t)
      else if !HasDoctor(t.doctors, id.value) then Handled(ToggleNotFound, t)
      else Handled(Toggled(isAvailable.value),
        t.(doctors := UpdateDoctors(t.doctors, id.value, SetAvailable(isAvailable.value))))
  }

  method ToggleHandler(db: Database, idText: string, isAvailable: Option<bool>) returns (reply: ToggleReply)
    modifies db
    ensures Handled(reply, db.Snapshot()) == Toggle(old(db.Snapshot()), idText, isAvailable)
  {
    if isAvailable.None? {
      return NotBoolean;
    }
    var id := ParseInt(idText);
    if id.None? {
      return ToggleFailed;
    }
    var found := db.UpdateDoctor(id.value, SetAvailable(isAvailable.value));
    if !found {
      return ToggleNotFound;
    }
    reply := Toggled(isAvailable.value);
  }

  /** The flag becomes exactly the given value on the doctor's row, and
      nothing else changes. */
  lemma ToggleSets(t: Tables, idText: string, b: bool)
    requires ParseInt(idText).Some?
    ensures var id := ParseInt(idText).value;
      var h := Toggle(t, idText, Some(b));
      && (h.reply == ToggleNotFound <==> !HasDoctor(t.doctors, id))
      && (h.reply == Toggled(b) <==> HasDoctor(t.doctors, id))
      && |h.tables.doctors| == |t.doctors|
      && (forall i :: 0 <= i < |t.doctors| ==>
            h.tables.doctors[i] == if t.doctors[i].id == id && h.reply.Toggled? then t.doctors[i].(isAvailable := b) else t.doctors[i])
      && h.tables.(doctors := t.doctors) == t
  {
  }
}
