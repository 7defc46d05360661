/** src/controllers/reviewController.js: adding a review with its
    eligibility checks and the doctor's rating aggregate, the unvalidated
    status write, and the doctor-id check of the review listing. */
module ReviewController {
  import opened Js
  import opened Schema
  import AppointmentController

  // ---------------------------------------------------------------------
  // The review listing

  /** `if (!parseInt(doctorId))`: NaN and 0 are refused with 400. */
  function ReviewsDoctorId(idText: string): (r: Option<int>)
    ensures r.None? <==> ParseInt(idText).None? || ParseInt(idText) == Some(0)
    ensures r.Some? ==> r == ParseInt(idText) && r.value != 0
  {
    var id := ParseInt(idText);
    if id.None? || id.value == 0 then None else id
  }

  /** Every non-zero id written in decimal passes the check; "0" and text without digits do not. */
  lemma ReviewsDoctorIdCheck(n: nat, junk: string)
    requires forall i :: 0 <= i < |junk| ==> !IsDigit(junk[i])
    ensures n != 0 ==> ReviewsDoctorId(DecimalText(n)) == Some(n)
    ensures ReviewsDoctorId(DecimalText(0)) == None
    ensures ReviewsDoctorId(junk) == None
  {
    ParseIntOfDecimalText(n);
    ParseIntOfDecimalText(0);
    ParseIntWithoutDigits(junk);
  }

  /** `FROM reviews r JOIN users u ON r.patient_id = u.id WHERE r.doctor_id = $1`:
      the doctor's reviews whose author still exists. */
  function DoctorReviews(t: Tables, doc: int): (r: seq<Review>)
    ensures forall x :: x in r <==> x in t.reviews && x.doctorId == doc && exists u :: u in t.users && u.id == x.patientId
  {
    Filter(t.reviews, (x: Review) => x.doctorId == doc && exists u :: u in t.users && u.id == x.patientId)
  }

  // ---------------------------------------------------------------------
  // createReview

  /** `!doctorId || !rating || rating < 1 || rating > 5`; absent fields are None. */
  predicate ValidInput(doctorId: Option<int>, rating: Option<int>) {
    doctorId.Some? && doctorId.value != 0 && rating.Some? && 1 <= rating.value <= 5
  }

  /** `SELECT id FROM appointments WHERE doctor_id = $1 AND patient_id = $2 AND status = 'completed'` */
  predicate Eligible(t: Tables, doc: int, patientId: int) {
    exists a :: a in t.appointments && a.doctorId == doc && a.patientId == patientId && a.status == "completed"
  }

  predicate Reviewed(t: Tables, doc: int, patientId: int) {
    exists r :: r in t.reviews && r.doctorId == doc && r.patientId == patientId
  }

  /** The ratings of one doctor's reviews, in table order. */
  function RatingsOf(reviews: seq<Review>, doc: int): seq<int> {
    if reviews == [] then []
    else (if reviews[0].doctorId == doc then [reviews[0].rating] else []) + RatingsOf(reviews[1..], doc)
  }

  function Sum(xs: seq<int>): int {
    if xs == [] then 0 else xs[0] + Sum(xs[1..])
  }

  /** `AVG(rating)` and `COUNT(*)` over the doctor's reviews. */
  function Aggregate(reviews: seq<Review>, doc: int): Mean {
    var ratings := RatingsOf(reviews, doc);
    Mean(Sum(ratings), |ratings|)
  }

  /** The statement of the transaction that fails, if any. */
  datatype Fault = NoFault | InsertFails | StatsFail | UpdateFails

  datatype ReviewReply =
    | InvalidInput       // 400 "Invalid input"
    | NotEligible        // 403 "You can only review doctors after completing an appointment"
    | AlreadyReviewed    // 400 "You have already reviewed this doctor"
    | ReviewFailed       // a statement failed and the transaction was rolled back: 500
    | ReviewAdded(review: Review)

  /** The doctor's row after the update: the aggregate and the count. */
  function Rerate(m: Mean): Doctor -> Doctor {
    (d: Doctor) => d.(avgRating := m, reviewCount := m.count)
  }

  /** createReview by the caller `patientId`. */
  function CreateReview(t: Tables, patientId: int, doctorId: Option<int>, rating: Option<int>, comment: string,
                        fault: Fault): Handled<ReviewReply> {
    if !ValidInput(doctorId, rating) then Handled(InvalidInput, t)
    else
      var doc := doctorId.value;
      if !Eligible(t, doc, patientId) then Handled(NotEligible, t)
      else if Reviewed(t, doc, patientId) then Handled(AlreadyReviewed, t)
      else if fault != NoFault then Handled(ReviewFailed, t.(nextReviewId := t.nextReviewId + 1))
      else
        var r := Review(t.nextReviewId, doc, patientId, rating.value, comment);
        var reviews := t.reviews + [r];
        Handled(ReviewAdded(r), t.(reviews := reviews, nextReviewId := r.id + 1,
          doctors := UpdateDoctors(t.doctors, doc, Rerate(Aggregate(reviews, doc)))))
  }

  method CreateReviewHandler(db: Database, patientId: int, doctorId: Option<int>, rating: Option<int>,
                             comment: string, fault: Fault) returns (reply: ReviewReply)
    modifies db
    ensures Handled(reply, db.Snapshot()) == CreateReview(old(db.Snapshot()), patientId, doctorId, rating, comment, fault)
  {
    if !ValidInput(doctorId, rating) {
      return InvalidInput;
    }
    var doc := doctorId.value;
    if !Eligible(db.Snapshot(), doc, patientId) {
      return NotEligible;
    }
    if Reviewed(db.Snapshot(), doc, patientId) {
      return AlreadyReviewed;
    }
    var saved := db.Snapshot();
    var id := db.InsertReview(doc, patientId, rating.value, comment);
    if fault == InsertFails {
      db.Rollback(saved);
      return ReviewFailed;
    }
    var stats := Aggregate(db.reviews, doc);
    if fault == StatsFail {
      db.Rollback(saved);
      return ReviewFailed;
    }
    var found := db.UpdateDoctor(doc, Rerate(stats));
    if fault == UpdateFails {
      db.Rollback(saved);
      return ReviewFailed;
    }
    reply := ReviewAdded(Review(id, doc, patientId, rating.value, comment));
  }

  /** Which reply a review gets: each refusal exactly when its check fails. */
  lemma ReviewReplies(t: Tables, patientId: int, doctorId: Option<int>, rating: Option<int>, comment: string, fault: Fault)
    ensures var r := CreateReview(t, patientId, doctorId, rating, comment, fault).reply;
      && (r == InvalidInput <==> !ValidInput(doctorId, rating))
      && (r == NotEligible <==> ValidInput(doctorId, rating) && !Eligible(t, doctorId.value, patientId))
      && (r == AlreadyReviewed <==>
            ValidInput(doctorId, rating) && Eligible(t, doctorId.value, patientId) && Reviewed(t, doctorId.value, patientId))
      && (r.ReviewAdded? <==>
            ValidInput(doctorId, rating) && Eligible(t, doctorId.value, patientId)
            && !Reviewed(t, doctorId.value, patientId) && fault == NoFault)
  {
  }

  /** Whatever fails, neither the reviews nor the doctors change. */
  lemma FailureWritesNothing(t: Tables, patientId: int, doctorId: Option<int>, rating: Option<int>, comment: string, fault: Fault)
    requires !CreateReview(t, patientId, doctorId, rating, comment, fault).reply.ReviewAdded?
    ensures var after := CreateReview(t, patientId, doctorId, rating, comment, fault).tables;
      after.reviews == t.reviews && after.doctors == t.doctors && after.appointments == t.appointments
  {
  }

  lemma {:induction false} RatingsAppend(reviews: seq<Review>, r: Review, doc: int)
    ensures RatingsOf(reviews + [r], doc) == RatingsOf(reviews, doc) + (if r.doctorId == doc then [r.rating] else [])
    decreases |reviews|
  {
    if reviews == [] {
      assert [r] + [] == [r];
      assert [r][1..] == [];
    } else {
      assert (reviews + [r])[0] == reviews[0];
      assert (reviews + [r])[1..] == reviews[1..] + [r];
      RatingsAppend(reviews[1..], r, doc);
    }
  }

  lemma {:induction false} SumAppend(xs: seq<int>, ys: seq<int>)
    ensures Sum(xs + ys) == Sum(xs) + Sum(ys)
    decreases |xs|
  {
    if xs == [] {
      assert xs + ys == ys;
    } else {
      assert (xs + ys)[0] == xs[0];
      assert (xs + ys)[1..] == xs[1..] + ys;
      SumAppend(xs[1..], ys);
    }
  }

  /** After a review is added, the doctor's row holds the aggregate of all its
      reviews: one more review, and the new rating added to the sum. Only that
      row's rating and count change; every other doctor, every other table and
      every other serial stays as it was. */
  lemma AddedReviewRerates(t: Tables, patientId: int, doctorId: Option<int>, rating: Option<int>, comment: string)
    requires CreateReview(t, patientId, doctorId, rating, comment, NoFault).reply.ReviewAdded?
    ensures var h := CreateReview(t, patientId, doctorId, rating, comment, NoFault);
      var doc := doctorId.value;
      var m := Aggregate(h.tables.reviews, doc);
      && m.count == Aggregate(t.reviews, doc).count + 1
      && m.sum == Aggregate(t.reviews, doc).sum + rating.value
      && h.tables.reviews == t.reviews + [h.reply.review]
      && |h.tables.doctors| == |t.doctors|
      && (forall i :: 0 <= i < |t.doctors| ==>
            h.tables.doctors[i] == if t.doctors[i].id == doc then Rerate(m)(t.doctors[i]) else t.doctors[i])
      && (forall d :: d in h.tables.doctors && d.id == doc ==> d.avgRating == m && d.reviewCount == m.count)
      && h.tables.(reviews := t.reviews, doctors := t.doctors, nextReviewId := t.nextReviewId) == t
  {
    var h := CreateReview(t, patientId, doctorId, rating, comment, NoFault);
    var doc := doctorId.value;
    var r := h.reply.review;
    RatingsAppend(t.reviews, r, doc);
    SumAppend(RatingsOf(t.reviews, doc), [r.rating]);
    var m := Aggregate(h.tables.reviews, doc);
    forall d | d in h.tables.doctors && d.id == doc
      ensures d.avgRating == m && d.reviewCount == m.count
    {
      var i :| 0 <= i < |h.tables.doctors| && h.tables.doctors[i] == d;
    }
  }

  /** Every stored rating is between 1 and 5. */
  predicate RatingsInRange(t: Tables) {
    forall r :: r in t.reviews ==> 1 <= r.rating <= 5
  }

  /** The only insert checks its rating, so the ratings stay in range. */
  lemma CreateKeepsRatingsInRange(t: Tables, patientId: int, doctorId: Option<int>, rating: Option<int>, comment: string, fault: Fault)
    requires RatingsInRange(t)
    ensures RatingsInRange(CreateReview(t, patientId, doctorId, rating, comment, fault).tables)
  {
  }

  lemma {:induction false} RatingsOfInRange(reviews: seq<Review>, doc: int)
    requires forall r :: r in reviews ==> 1 <= r.rating <= 5
    ensures forall i :: 0 <= i < |RatingsOf(reviews, doc)| ==> 1 <= RatingsOf(reviews, doc)[i] <= 5
    decreases |reviews|
  {
    if reviews != [] {
      assert forall r :: r in reviews[1..] ==> r in reviews;
      RatingsOfInRange(reviews[1..], doc);
    }
  }

  lemma {:induction false} SumBounds(xs: seq<int>)
    requires forall i :: 0 <= i < |xs| ==> 1 <= xs[i] <= 5
    ensures |xs| <= Sum(xs) <= 5 * |xs|
    decreases |xs|
  {
    if xs != [] {
      SumBounds(xs[1..]);
    }
  }

  /** With ratings in range, the average lies between 1 and 5 (as `count <=
      sum <= 5 * count`), and is the empty aggregate only for a doctor
      without reviews. */
  lemma AggregateInRange(t: Tables, doc: int)
    requires RatingsInRange(t)
    ensures var m := Aggregate(t.reviews, doc);
      m.count <= m.sum <= 5 * m.count
  {
    RatingsOfInRange(t.reviews, doc);
    SumBounds(RatingsOf(t.reviews, doc));
  }

  /** A second review of the same doctor by the same patient is refused. */
  lemma SecondReviewRefused(t: Tables, patientId: int, doctorId: Option<int>, rating: Option<int>, comment: string,
                            rating2: Option<int>, comment2: string, fault: Fault)
    requires CreateReview(t, patientId, doctorId, rating, comment, NoFault).reply.ReviewAdded?
    requires ValidInput(doctorId, rating2)
    ensures var t1 := CreateReview(t, patientId, doctorId, rating, comment, NoFault).tables;
      CreateReview(t1, patientId, doctorId, rating2, comment2, fault).reply == AlreadyReviewed
  {
    var h := CreateReview(t, patientId, doctorId, rating, comment, NoFault);
    assert h.reply.review in h.tables.reviews;
    var doc := doctorId.value;
    var a :| a in t.appointments && a.doctorId == doc && a.patientId == patientId && a.status == "completed";
    assert a in h.tables.appointments;
  }

  /** No patient has two reviews of one doctor. */
  predicate OneReviewEach(t: Tables) {
    forall i, j :: 0 <= i < j < |t.reviews| ==>
      !(t.reviews[i].doctorId == t.reviews[j].doctorId && t.reviews[i].patientId == t.reviews[j].patientId)
  }

  lemma CreateKeepsOneReviewEach(t: Tables, patientId: int, doctorId: Option<int>, rating: Option<int>, comment: string, fault: Fault)
    requires OneReviewEach(t)
    ensures OneReviewEach(CreateReview(t, patientId, doctorId, rating, comment, fault).tables)
  {
    var h := CreateReview(t, patientId, doctorId, rating, comment, fault);
    if h.reply.ReviewAdded? {
      var rs := h.tables.reviews;
      forall i, j | 0 <= i < j < |rs|
        ensures !(rs[i].doctorId == rs[j].doctorId && rs[i].patientId == rs[j].patientId)
      {
        if j == |t.reviews| {
          assert rs[i] == t.reviews[i];
          assert t.reviews[i] in t.reviews;
        } else {
          assert rs[i] == t.reviews[i] && rs[j] == t.reviews[j];
        }
      }
    }
  }

  // ---------------------------------------------------------------------
  // updateAppointmentStatus in reviewController.js

  datatype WriteReply =
    | Unauthorized     // 401: the caller is not an administrator
    | WriteFailed      // `parseInt` gave NaN and the query fails: 500
    | WriteNotFound    // 404 "Appointment not found"
    | Written(id: int)

  /** The inner joins: the appointment, its patient, its doctor and the doctor's user all exist. */
  predicate JoinedRowExists(t: Tables, id: int) {
    exists a :: a in t.appointments && a.id == id
      && (exists u :: u in t.users && u.id == a.patientId)
      && (exists d :: d in t.doctors && d.id == a.doctorId && exists du :: du in t.users && du.id == d.userId)
  }

  /** Only the role is checked: the status is written as given, with `now` as NOW(). */
  function WriteStatus(t: Tables, role: string, idText: string, status: string, now: int): Handled<WriteReply> {
    if role != "admin" then Handled(Unauthorized, t)
    else
      var id := ParseInt(idText);
      if id.None? then Handled(WriteFailed, t)
      else if !JoinedRowExists(t, id.value) then Handled(WriteNotFound, t)
      else Handled(Written(id.value), t.(appointments := SetStatus(t.appointments, id.value, status, Some(now))))
  }

  method WriteStatusHandler(db: Database, role: string, idText: string, status: string, now: int) returns (reply: WriteReply)
    modifies db
    ensures Handled(reply, db.Snapshot()) == WriteStatus(old(db.Snapshot()), role, idText, status, now)
  {
    if role != "admin" {
      return Unauthorized;
    }
    var id := ParseInt(idText);
    if id.None? {
      return WriteFailed;
    }
    if !JoinedRowExists(db.Snapshot(), id.value) {
      return WriteNotFound;
    }
    var found := db.UpdateStatus(id.value, status, Some(now));
    reply := Written(id.value);
  }

  /** A non-administrator is refused before any lookup; for an administrator
      an unknown id answers 404, and any status text at all, outside every
      whitelist, is written with `now` on that id's rows. Only a write changes
      the tables, and it changes nothing but those rows. */
  lemma WriteUnvalidated(t: Tables, role: string, idText: string, status: string, now: int)
    ensures var h := WriteStatus(t, role, idText, status, now);
      && (role != "admin" ==> h == Handled(Unauthorized, t))
      && (h.reply == WriteFailed <==> role == "admin" && ParseInt(idText).None?)
      && (h.reply == WriteNotFound <==>
            role == "admin" && ParseInt(idText).Some? && !JoinedRowExists(t, ParseInt(idText).value))
      && (h.reply.Written? <==> role == "admin" && ParseInt(idText).Some? && JoinedRowExists(t, ParseInt(idText).value))
      && (!h.reply.Written? ==> h.tables == t)
      && (h.reply.Written? ==>
            && h.reply.id == ParseInt(idText).value
            && |h.tables.appointments| == |t.appointments|
            && (forall i :: 0 <= i < |t.appointments| ==>
                  var before, after := t.appointments[i], h.tables.appointments[i];
                  after == if before.id == h.reply.id then before.(status := status, updatedAt := Some(now)) else before)
            && h.tables.(appointments := t.appointments) == t)
  {
  }

  /** This write is the one way a `rejected` status reaches the table, where
      the booking guard no longer counts it. */
  lemma RejectedWriteReleasesBooking(t: Tables, idText: string, now: int, doc: int, d: Day, slotId: int)
    requires WriteStatus(t, "admin", idText, "rejected", now).reply.Written?
    ensures var h := WriteStatus(t, "admin", idText, "rejected", now);
      forall a :: a in h.tables.appointments && a.id == h.reply.id ==> !AppointmentController.Holds(a, doc, d, slotId)
  {
    WriteUnvalidated(t, "admin", idText, "rejected", now);
  }
}
