/** Registration-form validation and the course grading ladder (utils.py). */
module Utils {
  import opened Wrappers

  /** One step of an ordered validator: whether the field is filled in and the
      message reported when it is not. */
  datatype Check = Check(present: bool, message: string)

  /** The message of the first check that fails, or `None` when all pass:
      the chain of early returns in `validate_input`. */
  function FirstMissing(checks: seq<Check>): (r: Option<string>)
    decreases |checks|
  {
    if |checks| == 0 then None
    else if !checks[0].present then Some(checks[0].message)
    else FirstMissing(checks[1..])
  }

  /** The validator accepts exactly when every check passes. */
  lemma {:induction false} FirstMissingNoneIffAllPresent(checks: seq<Check>)
    ensures FirstMissing(checks).None? <==> forall i :: 0 <= i < |checks| ==> checks[i].present
    decreases |checks|
  {
    if |checks| > 0 {
      FirstMissingNoneIffAllPresent(checks[1..]);
      assert forall i :: 1 <= i < |checks| ==> checks[i] == checks[1..][i - 1];
    }
  }

  /** When several checks fail, the earliest one decides the message. */
  lemma {:induction false} FirstMissingReportsEarliest(checks: seq<Check>, k: nat)
    requires k < |checks| && !checks[k].present
    requires forall j :: 0 <= j < k ==> checks[j].present
    ensures FirstMissing(checks) == Some(checks[k].message)
    decreases k
  {
    if k > 0 {
      assert checks[0].present;
      FirstMissingReportsEarliest(checks[1..], k - 1);
    }
  }

  /** Every message the validator reports belongs to a check that failed. */
  lemma {:induction false} FirstMissingFromFailedCheck(checks: seq<Check>)
    ensures FirstMissing(checks).Some? ==>
      exists k :: 0 <= k < |checks| && !checks[k].present && FirstMissing(checks).value == checks[k].message
    decreases |checks|
  {
    if |checks| > 0 && checks[0].present {
      FirstMissingFromFailedCheck(checks[1..]);
      if FirstMissing(checks[1..]).Some? {
        var k :| 0 <= k < |checks[1..]| && !checks[1..][k].present
                 && FirstMissing(checks[1..]).value == checks[1..][k].message;
        assert checks[k + 1] == checks[1..][k];
      }
    }
  }

  const NameMessage := "Please enter your name."
  const RollNoMessage := "Please enter your roll number."
  const EmailMessage := "Please enter your email."
  const SlotMessage := "Please enter your slot."
  const ContactMessage := "Please enter your contact number."
  const CourseMessage := "Please select a course."
  const TeacherMessage := "Please select your favorite teacher."
  const PhotoMessage := "Please upload a photo."

  /** The messages of the eight fields, in the order they are checked. */
  const FieldMessages := [NameMessage, RollNoMessage, EmailMessage, SlotMessage, ContactMessage,
                          CourseMessage, TeacherMessage, PhotoMessage]

  /** The eight registration fields in the order `validate_input` tests them. */
  function RegistrationChecks(name: string, rollNo: string, email: string, slot: string, contact: string,
                              course: string, favoriteTeacher: string, photo: seq<bv8>): (cs: seq<Check>)
    ensures |cs| == |FieldMessages|
    ensures forall k :: 0 <= k < |cs| ==> cs[k].message == FieldMessages[k]
  {
    [ Check(Truthy(name), NameMessage),
      Check(Truthy(rollNo), RollNoMessage),
      Check(Truthy(email), EmailMessage),
      Check(Truthy(slot), SlotMessage),
      Check(Truthy(contact), ContactMessage),
      Check(Truthy(course), CourseMessage),
      Check(Truthy(favoriteTeacher), TeacherMessage),
      Check(Truthy(photo), PhotoMessage) ]
  }

  /** `validate_input`: `None` when the form is complete, otherwise the message
      for the first empty field. */
  function ValidateInput(name: string, rollNo: string, email: string, slot: string, contact: string,
                         course: string, favoriteTeacher: string, photo: seq<bv8>): (r: Option<string>)
    ensures r.None? <==> |name| > 0 && |rollNo| > 0 && |email| > 0 && |slot| > 0 && |contact| > 0
                         && |course| > 0 && |favoriteTeacher| > 0 && |photo| > 0
    ensures r.Some? ==> r.value in FieldMessages
  {
    var cs := RegistrationChecks(name, rollNo, email, slot, contact, course, favoriteTeacher, photo);
    FirstMissingNoneIffAllPresent(cs);
    FirstMissingFromFailedCheck(cs);
    assert cs[0].present == Truthy(name) && cs[1].present == Truthy(rollNo);
    assert cs[2].present == Truthy(email) && cs[3].present == Truthy(slot);
    assert cs[4].present == Truthy(contact) && cs[5].present == Truthy(course);
    assert cs[6].present == Truthy(favoriteTeacher) && cs[7].present == Truthy(photo);
    assert (forall i :: 0 <= i < |cs| ==> cs[i].present)
           <==> cs[0].present && cs[1].present && cs[2].present && cs[3].present
                && cs[4].present && cs[5].present && cs[6].present && cs[7].present;
    FirstMissing(cs)
  }

  /** An empty name is reported whatever the other fields hold. */
  lemma EmptyNameReportedFirst(rollNo: string, email: string, slot: string, contact: string,
                               course: string, favoriteTeacher: string, photo: seq<bv8>)
    ensures ValidateInput("", rollNo, email, slot, contact, course, favoriteTeacher, photo) == Some(NameMessage)
  {
  }

  /** A missing photo is reported only when every other field is filled in. */
  lemma OnlyPhotoMissing(name: string, rollNo: string, email: string, slot: string, contact: string,
                         course: string, favoriteTeacher: string)
    requires |name| > 0 && |rollNo| > 0 && |email| > 0 && |slot| > 0 && |contact| > 0
    requires |course| > 0 && |favoriteTeacher| > 0
    ensures ValidateInput(name, rollNo, email, slot, contact, course, favoriteTeacher, []) == Some(PhotoMessage)
  {
    var cs := RegistrationChecks(name, rollNo, email, slot, contact, course, favoriteTeacher, []);
    FirstMissingReportsEarliest(cs, 7);
  }

  /** With several fields empty, the message is that of the earliest empty field
      in the fixed order name, roll number, e-mail, slot, contact, course,
      favourite teacher, photo. */
  lemma EarliestEmptyFieldReported(name: string, rollNo: string, email: string, slot: string, contact: string,
                                   course: string, favoriteTeacher: string, photo: seq<bv8>, k: nat)
    requires k < 8
    requires var filled := [Truthy(name), Truthy(rollNo), Truthy(email), Truthy(slot), Truthy(contact),
                            Truthy(course), Truthy(favoriteTeacher), Truthy(photo)];
             !filled[k] && forall j :: 0 <= j < k ==> filled[j]
    ensures ValidateInput(name, rollNo, email, slot, contact, course, favoriteTeacher, photo)
            == Some(FieldMessages[k])
  {
    var cs := RegistrationChecks(name, rollNo, email, slot, contact, course, favoriteTeacher, photo);
    var filled := [Truthy(name), Truthy(rollNo), Truthy(email), Truthy(slot), Truthy(contact),
                   Truthy(course), Truthy(favoriteTeacher), Truthy(photo)];
    forall j | 0 <= j < |cs|
      ensures cs[j].present == filled[j]
    {
    }
    FirstMissingReportsEarliest(cs, k);
  }

  /** `Course` only remembers its name; grading does not depend on it. */
  datatype Course = Course(name: string) {

    /** `Course.get_grade`: the letter for the marks, by the fixed
        thresholds 90, 80, 70 and 60. The course's name plays no part. */
    function GetGrade(marks: int): (g: string)
      ensures g in ["A", "B", "C", "D", "F"]
      ensures g == "A" <==> 90 <= marks
      ensures g == "B" <==> 80 <= marks < 90
      ensures g == "C" <==> 70 <= marks < 80
      ensures g == "D" <==> 60 <= marks < 70
      ensures g == "F" <==> marks < 60
    {
      if marks >= 90 then "A"
      else if marks >= 80 then "B"
      else if marks >= 70 then "C"
      else if marks >= 60 then "D"
      else "F"
    }
  }

  /** Position of a letter grade, from "F" (0) up to "A" (4). */
  function GradeRank(g: string): (r: nat) {
    if g == "A" then 4 else if g == "B" then 3 else if g == "C" then 2 else if g == "D" then 1 else 0
  }

  /** More marks never earn a worse grade. */
  lemma GradeMonotone(c: Course, m1: int, m2: int)
    requires m1 <= m2
    ensures GradeRank(c.GetGrade(m1)) <= GradeRank(c.GetGrade(m2))
  {
  }
}
