/** src/utils/emailTemplates.js: the subject and HTML body of the e-mail sent
    when an appointment's status changes. */
module EmailTemplates {
  import opened Js

  /** The fields of the joined appointment row that the templates interpolate,
      already turned into text: `date` is what `toLocaleDateString()` gives. */
  datatype AppointmentFacts = AppointmentFacts(
    patientName: string,
    doctorName: string,
    date: string,
    startTime: string,
    endTime: string,
    specialtyName: string)

  datatype Template = Template(subject: string, html: string)

  const PendingSubject := "Appointment Booking Confirmation - Pending"
  const ConfirmedSubject := "Appointment Confirmed"
  const CompletedSubject := "Appointment Completed - Share Your Experience"
  const CancelledSubject := "Appointment Cancelled"
  const FallbackSubject := "Appointment Status Update"

  /** The statuses that have a template of their own. */
  predicate HasOwnTemplate(status: string) {
    status == "pending" || status == "confirmed" || status == "completed" || status == "cancelled"
  }

  /** `${start_time} - ${end_time}` */
  function TimeRange(a: AppointmentFacts): string {
    a.startTime + " - " + a.endTime
  }

  /** The pieces of text joined in order. */
  function Concat(parts: seq<string>): string {
    if parts == [] then "" else parts[0] + Concat(parts[1..])
  }

  lemma {:induction false} ConcatSplit(parts: seq<string>, i: nat)
    requires i < |parts|
    ensures Concat(parts) == Concat(parts[..i]) + parts[i] + Concat(parts[i + 1..])
    decreases i
  {
    if i > 0 {
      ConcatSplit(parts[1..], i - 1);
      assert parts[1..][..i - 1] == parts[1..i];
      assert parts[1..][i - 1 + 1..] == parts[i + 1..];
      assert parts[..i] == [parts[0]] + parts[1..i];
      assert Concat(parts[..i]) == parts[0] + Concat(parts[1..i]);
    } else {
      assert parts[..0] == [];
    }
  }

  /** Each joined piece occurs in the joined text. */
  lemma ContainsPart(parts: seq<string>, i: nat)
    requires i < |parts|
    ensures Contains(Concat(parts), parts[i])
  {
    ConcatSplit(parts, i);
    ContainsMiddle(Concat(parts[..i]), parts[i], Concat(parts[i + 1..]));
  }

  /** The pieces of a letter: a heading, the greeting, one sentence about the
      appointment, the details list and a closing. */
  function LetterParts(title: string, a: AppointmentFacts, sentence: string, heading: string, closing: string): seq<string> {
    ["<h2>", title, "</h2>\n<p>Dear ", a.patientName, ",</p>\n<p>", sentence, "</p>\n<p><strong>", heading,
     "</strong></p>\n<ul>\n<li>Date: ", a.date, "</li>\n<li>Time: ", TimeRange(a),
     "</li>\n<li>Doctor: Dr. ", a.doctorName, "</li>\n<li>Specialty: ", a.specialtyName, "</li>\n</ul>\n", closing]
  }

  function Letter(title: string, a: AppointmentFacts, sentence: string, heading: string, closing: string): string {
    Concat(LetterParts(title, a, sentence, heading, closing))
  }

  function WithDoctor(a: AppointmentFacts): string {
    "Your appointment with Dr. " + a.doctorName + " (" + a.specialtyName + ")"
  }

  /** `templates[status].subject`, or the generic subject for any other status. */
  function SubjectFor(status: string): string {
    if status == "pending" then PendingSubject
    else if status == "confirmed" then ConfirmedSubject
    else if status == "completed" then CompletedSubject
    else if status == "cancelled" then CancelledSubject
    else FallbackSubject
  }

  /** The parts in which the five templates differ. */
  datatype Wording = Wording(title: string, sentence: string, heading: string, closing: string)

  /** `templates[status] || {...}`: the four known statuses have their own
      wording, any other status gets the generic one. */
  function WordingFor(a: AppointmentFacts, status: string): Wording {
    if status == "pending" then
      Wording("Appointment Booking Confirmation",
        WithDoctor(a) + " has been booked and is pending confirmation.",
        "Appointment Details:", "<p>We will notify you once the appointment is confirmed.</p>\n")
    else if status == "confirmed" then
      Wording("Appointment Confirmed", WithDoctor(a) + " has been confirmed.",
        "Appointment Details:", "<p>Please arrive 15 minutes before your scheduled appointment time.</p>\n")
    else if status == "completed" then
      Wording("Appointment Completed", WithDoctor(a) + " has been marked as completed.",
        "Appointment Details:",
        "<p>We value your feedback! Please take a moment to rate your experience with Dr. " + a.doctorName
        + ".</p>\n<p>You can leave a review by visiting the doctor's profile page.</p>\n")
    else if status == "cancelled" then
      Wording("Appointment Cancelled", WithDoctor(a) + " has been cancelled.",
        "Cancelled Appointment Details:",
        "<p>If you would like to reschedule, please visit our website to book a new appointment.</p>\n")
    else
      Wording("Appointment Status Update",
        "The status of your appointment with Dr. " + a.doctorName + " has been updated to " + status + ".",
        "Appointment Details:", "")
  }

  /** getAppointmentStatusEmailTemplate(appointment, status). */
  function StatusTemplate(a: AppointmentFacts, status: string): Template {
    var w := WordingFor(a, status);
    Template(SubjectFor(status), Letter(w.title, a, w.sentence, w.heading, w.closing))
  }

  /** The five subjects differ pairwise, so a subject tells which template was
      used: two statuses with the same subject are equal, or both lack a template. */
  lemma SubjectNamesTemplate(s1: string, s2: string)
    requires SubjectFor(s1) == SubjectFor(s2)
    ensures s1 == s2 || (!HasOwnTemplate(s1) && !HasOwnTemplate(s2))
  {
    assert |PendingSubject| == 42 && |ConfirmedSubject| == 21 && |CompletedSubject| == 45
      && |CancelledSubject| == 21 && |FallbackSubject| == 25;
    assert ConfirmedSubject[13] != CancelledSubject[13];
  }

  /** Every template's body greets the patient, names the doctor and gives the time range. */
  lemma BodyNamesParties(a: AppointmentFacts, status: string)
    ensures Contains(StatusTemplate(a, status).html, a.patientName)
    ensures Contains(StatusTemplate(a, status).html, a.doctorName)
    ensures Contains(StatusTemplate(a, status).html, TimeRange(a))
  {
    var w := WordingFor(a, status);
    LetterNamesParties(w.title, a, w.sentence, w.heading, w.closing);
  }

  lemma LetterNamesParties(title: string, a: AppointmentFacts, sentence: string, heading: string, closing: string)
    ensures var h := Letter(title, a, sentence, heading, closing);
      Contains(h, a.patientName) && Contains(h, a.doctorName) && Contains(h, TimeRange(a)) && Contains(h, sentence)
  {
    var parts := LetterParts(title, a, sentence, heading, closing);
    ContainsPart(parts, 3);
    ContainsPart(parts, 5);
    ContainsPart(parts, 11);
    ContainsPart(parts, 13);
  }

  /** A status without a template of its own gets the generic subject and a body that names the status. */
  lemma FallbackNamesStatus(a: AppointmentFacts, status: string)
    requires !HasOwnTemplate(status)
    ensures StatusTemplate(a, status).subject == FallbackSubject
    ensures Contains(StatusTemplate(a, status).html, status)
  {
    var w := WordingFor(a, status);
    var pre := "The status of your appointment with Dr. " + a.doctorName + " has been updated to ";
    assert w.sentence == pre + status + ".";
    ContainsMiddle(pre, status, ".");
    LetterNamesParties(w.title, a, w.sentence, w.heading, w.closing);
    ContainsTransitive(StatusTemplate(a, status).html, w.sentence, status);
  }

  /** A text that contains `t` contains every part of `t`. */
  lemma ContainsTransitive(s: string, t: string, u: string)
    requires Contains(s, t) && Contains(t, u)
    ensures Contains(s, u)
  {
    var i :| 0 <= i <= |s| && OccursAt(s, t, i);
    var j :| 0 <= j <= |t| && OccursAt(t, u, j);
    forall k | 0 <= k < |u|
      ensures s[i + j + k] == u[k]
    {
      assert u[k] == t[j..j + |u|][k] == t[j + k];
      assert t[j + k] == s[i..i + |t|][j + k] == s[i + j + k];
    }
    assert s[i + j..i + j + |u|] == u;
    assert OccursAt(s, u, i + j);
  }
}
