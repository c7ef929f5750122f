/**
 * The rules of the student dashboard page (client/src/pages/StudentDashboard.jsx): the enrollment
 * test, the per-course progress percentage and certificate condition, the enroll gating and the
 * state that `fetchData` loads.
 */
module StudentDashboard {
  import opened Common
  import opened Models
  import StudentController

  /** A course as the page holds it: its `_id` and the ids of its `lessons`. */
  datatype CourseCard = CourseCard(id: Id, lessons: seq<Id>)

  /** The `student` state: `isAccountVerified`, and `completedLessons` when the data carries them. */
  datatype StudentView = StudentView(isAccountVerified: bool, completedLessons: Option<seq<CompletedLesson>>)

  /** `setStudent(studentRes.data.stData)`: the `stData` projection has no `completedLessons` member. */
  function StudentViewOf(d: StudentController.StData): StudentView {
    StudentView(d.isAccountVerified, None)
  }

  /** `myCourses.some(c => String(c._id) === String(courseId))`. */
  predicate IsEnrolled(myCourses: seq<CourseCard>, courseId: Id) {
    exists i :: 0 <= i < |myCourses| && myCourses[i].id == courseId
  }

  /** Number of records of `done` whose `courseId` is strictly equal to `courseId`. */
  function CountFor(done: seq<CompletedLesson>, courseId: Id): (n: nat)
    ensures n <= |done|
  {
    if done == [] then 0
    else (if done[0].courseId == Some(courseId) then 1 else 0) + CountFor(done[1..], courseId)
  }

  /** `student?.completedLessons?.filter(l => l.courseId === course._id).length || 0`. */
  function Completed(student: StudentView, courseId: Id): nat {
    match student.completedLessons
    case None => 0
    case Some(done) => CountFor(done, courseId)
  }

  /** `course.lessons?.length || 1`: a course without lessons counts as one lesson. */
  function LessonTotal(lessons: seq<Id>): (t: nat)
    ensures t >= 1
    ensures |lessons| > 0 ==> t == |lessons|
  {
    if |lessons| == 0 then 1 else |lessons|
  }

  /**
   * `Math.round((completed / total) * 100)` on non-negative operands: round half up of
   * 100·completed/total, which in integers is floor((200·completed + total) / (2·total)).
   */
  function Percent(completed: nat, total: nat): nat
    requires total >= 1
  {
    (200 * completed + total) / (2 * total)
  }

  lemma MulLe(x: int, y: int, b: int)
    requires x <= y && b > 0
    ensures x * b <= y * b
  {
    assert y * b == x * b + (y - x) * b;
  }

  lemma MulLtCancel(x: int, y: int, b: int)
    requires b > 0 && x * b < y * b
    ensures x < y
  {
    if y <= x {
      MulLe(y, x, b);
    }
  }

  /** Integer division pinned between two multiples. */
  lemma DivBetween(a: int, b: int, q: int)
    requires b > 0 && q * b <= a < (q + 1) * b
    ensures a / b == q
  {
    var d := a / b;
    assert d * b <= a < (d + 1) * b;
    MulLtCancel(d, q + 1, b);
    MulLtCancel(q, d + 1, b);
  }

  /** Division by a fixed positive number is monotone. */
  lemma DivMonotone(a1: nat, a2: nat, b: nat)
    requires b > 0 && a1 <= a2
    ensures a1 / b <= a2 / b
  {
    var q1, q2 := a1 / b, a2 / b;
    assert q1 * b <= a1 && a2 < (q2 + 1) * b;
    MulLtCancel(q1, q2 + 1, b);
  }

  /** No completed lesson shows 0%, all lessons completed show 100%. */
  lemma PercentEnds(total: nat)
    requires total >= 1
    ensures Percent(0, total) == 0
    ensures Percent(total, total) == 100
  {
    DivBetween(total, 2 * total, 0);
    DivBetween(201 * total, 2 * total, 100);
  }

  lemma PercentMonotone(c1: nat, c2: nat, total: nat)
    requires total >= 1 && c1 <= c2
    ensures Percent(c1, total) <= Percent(c2, total)
  {
    DivMonotone(200 * c1 + total, 200 * c2 + total, 2 * total);
  }

  /** With no more completions than lessons the percentage never exceeds 100. */
  lemma PercentAtMost100(completed: nat, total: nat)
    requires total >= 1 && completed <= total
    ensures Percent(completed, total) <= 100
  {
    PercentMonotone(completed, total, total);
    PercentEnds(total);
  }

  /** The rounded percentage reaches 100 exactly when at least 99.5% of the lessons are completed. */
  lemma PercentIs100Iff(completed: nat, total: nat)
    requires total >= 1 && completed <= total
    ensures Percent(completed, total) == 100 <==> 200 * completed >= 199 * total
  {
    PercentAtMost100(completed, total);
    var a := 200 * completed + total;
    if 200 * completed >= 199 * total {
      assert 100 * (2 * total) <= a;
      DivMonotone(100 * (2 * total), a, 2 * total);
      assert 100 * (2 * total) / (2 * total) == 100 by {
        DivBetween(100 * (2 * total), 2 * total, 100);
      }
    } else {
      assert a < 100 * (2 * total);
      DivMonotone(a, 100 * (2 * total) - 1, 2 * total);
      DivBetween(100 * (2 * total) - 1, 2 * total, 99);
    }
  }

  /** The button under a course card: a certificate at a displayed 100%, otherwise "Continue Course". */
  predicate ShowsCertificate(completed: nat, total: nat)
    requires total >= 1
  {
    Percent(completed, total) == 100
  }

  /** As written, 199 of 200 lessons already round to 100% and offer the certificate. */
  lemma CertificateBeforeLastLesson()
    ensures 199 < 200 && ShowsCertificate(199, 200)
  {
    PercentIs100Iff(199, 200);
  }

  /** A certificate with lessons still open needs a course of at least 200 lessons. */
  lemma EarlyCertificateNeedsLongCourse(completed: nat, total: nat)
    requires total >= 1 && completed < total
    ensures ShowsCertificate(completed, total) ==> total >= 200
  {
    PercentIs100Iff(completed, total);
  }

  /** The percentage rounded down, `Math.floor((completed / total) * 100)`. */
  function FloorPercent(completed: nat, total: nat): nat
    requires total >= 1
  {
    100 * completed / total
  }

  /** Rounded down, the certificate condition holds exactly when every lesson is completed. */
  lemma FloorPercentFullIff(completed: nat, total: nat)
    requires total >= 1 && completed <= total
    ensures FloorPercent(completed, total) <= 100
    ensures FloorPercent(completed, total) == 100 <==> completed == total
  {
    DivMonotone(100 * completed, 100 * total, total);
    DivBetween(100 * total, total, 100);
    if completed < total {
      DivMonotone(100 * completed, 100 * total - 1, total);
      DivBetween(100 * total - 1, total, 99);
    }
  }

  /** The certificate condition of the corrected page. */
  predicate CertificateDue(completed: nat, total: nat)
    requires total >= 1
  {
    FloorPercent(completed, total) == 100
  }

  /** The corrected condition is met by every finished course and by no unfinished one. */
  lemma CertificateDueIffFinished(completed: nat, total: nat)
    requires total >= 1 && completed <= total
    ensures CertificateDue(completed, total) <==> completed == total
    ensures CertificateDue(completed, total) ==> ShowsCertificate(completed, total)
  {
    FloorPercentFullIff(completed, total);
    PercentEnds(total);
  }

  /**
   * The data `getStudentData` serves carries no completions, so every course card of the page
   * shows 0% and "Continue Course", however many lessons the student has completed.
   */
  lemma DashboardProgressAlwaysZero(s: Student, course: CourseCard)
    ensures StudentController.GetStudentData(s).Some?
    ensures var view := StudentViewOf(StudentController.GetStudentData(s).value);
      && Completed(view, course.id) == 0
      && Percent(Completed(view, course.id), LessonTotal(course.lessons)) == 0
      && !ShowsCertificate(Completed(view, course.id), LessonTotal(course.lessons))
  {
    PercentEnds(LessonTotal(course.lessons));
  }

  /** The Enroll button: disabled for an enrolled course and for an unverified student. */
  predicate EnrollDisabled(enrolled: bool, verified: bool) {
    enrolled || !verified
  }

  /** The View button: disabled unless enrolled. */
  predicate ViewDisabled(enrolled: bool) {
    !enrolled
  }

  /** The body of the `getEnrolledCourses` reply, reduced to the page's view of its list. */
  datatype EnrolledBody = EnrolledBody(enrolledCourses: seq<CourseCard>)

  /** What the three requests of `fetchData` bring back when all of them succeed. */
  datatype FetchResponse = FetchResponse(stData: StudentController.StData, allCourses: seq<CourseCard>,
                                         enrolled: EnrolledBody)

  /**
   * `myCoursesRes.data.courses || []`: the reply has its list under `enrolledCourses` and no
   * `courses` member, so the fallback is taken on every successful fetch.
   */
  function MyCoursesOf(body: EnrolledBody): seq<CourseCard> {
    []
  }

  /** With the list that `fetchData` stores, no course counts as enrolled: View is always disabled. */
  lemma NoCourseShowsEnrolled(body: EnrolledBody, courseId: Id, verified: bool)
    ensures !IsEnrolled(MyCoursesOf(body), courseId)
    ensures ViewDisabled(IsEnrolled(MyCoursesOf(body), courseId))
    ensures EnrollDisabled(IsEnrolled(MyCoursesOf(body), courseId), verified) <==> !verified
  {
  }

  /** The reply `enrollInCourse` sends, as the page's axios call sees it. */
  function EnrollResponseOf(r: StudentController.EnrollReply, errorMessage: string): HttpResponse {
    match r
    case Enrolled => Answered(true, "Enrolled successfully")
    case CourseNotFound => Answered(false, "Course not found")
    case NotVerified => Threw("Verify your account before enrolling in any course.")
    case EnrollServerError => Threw(errorMessage)
  }

  const VerifyFirstMessage: string := "\U{26A0}\U{FE0F} Please verify your account before enrolling."
  const EnrolledMessage: string := "\U{2705} Enrolled successfully!"
  const LoadFailedMessage: string := "\U{26A0}\U{FE0F} Failed to load data"

  /** The toast after an enroll request: the success text, else the server's message or "Enroll failed". */
  function EnrollMessage(response: HttpResponse): string {
    match response
    case Answered(success, message) => if success then EnrolledMessage else Or(message, "Enroll failed")
    case Threw(message) => Or(message, "Enroll failed")
  }

  /** An enroll the server accepts ends with the success toast; every refusal shows its own reason. */
  lemma EnrollMessageOfServer(r: StudentController.EnrollReply, errorMessage: string)
    ensures r == StudentController.Enrolled ==> EnrollMessage(EnrollResponseOf(r, errorMessage)) == EnrolledMessage
    ensures r == StudentController.CourseNotFound ==>
      EnrollMessage(EnrollResponseOf(r, errorMessage)) == "Course not found"
    ensures r == StudentController.NotVerified ==>
      EnrollMessage(EnrollResponseOf(r, errorMessage)) == "Verify your account before enrolling in any course."
    ensures r == StudentController.EnrollServerError && errorMessage == "" ==>
      EnrollMessage(EnrollResponseOf(r, errorMessage)) == "Enroll failed"
  {
  }

  /** The page state that `fetchData` and `enrollCourse` change. */
  class Dashboard {
    var infoMessage: string
    var student: Option<StudentView>
    var allCourses: seq<CourseCard>
    var myCourses: seq<CourseCard>
    var showVerifyModal: bool
    /** The course ids of the enroll requests posted so far. */
    var enrollRequests: seq<Id>

    constructor ()
      ensures infoMessage == "" && student == None && allCourses == [] && myCourses == []
      ensures !showVerifyModal && enrollRequests == []
    {
      infoMessage, student, allCourses, myCourses := "", None, [], [];
      showVerifyModal, enrollRequests := false, [];
    }

    /** `student?.isAccountVerified`: false while no student is loaded. */
    predicate Verified()
      reads this
    {
      student.Some? && student.value.isAccountVerified
    }

    /** `fetchData`: all three requests succeed and set the state, or the toast reports the failure. */
    method FetchData(response: Option<FetchResponse>)
      modifies this
      ensures showVerifyModal == old(showVerifyModal) && enrollRequests == old(enrollRequests)
      ensures response.None? ==>
                && infoMessage == LoadFailedMessage
                && student == old(student) && allCourses == old(allCourses) && myCourses == old(myCourses)
      ensures response.Some? ==>
                && infoMessage == old(infoMessage)
                && student == Some(StudentViewOf(response.value.stData))
                && allCourses == response.value.allCourses
                && myCourses == MyCoursesOf(response.value.enrolled)
    {
      if response.None? {
        infoMessage := LoadFailedMessage;
        return;
      }
      student := Some(StudentViewOf(response.value.stData));
      allCourses := response.value.allCourses;
      myCourses := MyCoursesOf(response.value.enrolled);
    }

    /**
     * `enrollCourse`: an unverified student gets the modal and a toast, and no request is sent.
     * Otherwise the request is posted, the toast reports the answer, and a success reloads the page data.
     */
    method EnrollCourse(courseId: Id, response: HttpResponse, reload: Option<FetchResponse>)
      modifies this
      ensures !old(Verified()) ==>
                && showVerifyModal && infoMessage == VerifyFirstMessage
                && enrollRequests == old(enrollRequests)
                && student == old(student) && allCourses == old(allCourses) && myCourses == old(myCourses)
      ensures old(Verified()) ==>
                && showVerifyModal == old(showVerifyModal)
                && enrollRequests == old(enrollRequests) + [courseId]
      ensures old(Verified()) && response != Answered(true, response.message) ==>
                && infoMessage == EnrollMessage(response)
                && student == old(student) && allCourses == old(allCourses) && myCourses == old(myCourses)
      ensures old(Verified()) && response == Answered(true, response.message) ==>
                && infoMessage == (if reload.Some? then EnrolledMessage else LoadFailedMessage)
                && (reload.Some? ==> student == Some(StudentViewOf(reload.value.stData))
                                     && allCourses == reload.value.allCourses && myCourses == MyCoursesOf(reload.value.enrolled))
                && (reload.None? ==> student == old(student) && allCourses == old(allCourses)
                                     && myCourses == old(myCourses))
    {
      if !Verified() {
        showVerifyModal := true;
        infoMessage := VerifyFirstMessage;
        return;
      }
      enrollRequests := enrollRequests + [courseId];
      infoMessage := EnrollMessage(response);
      if response.Answered? && response.success {
        FetchData(reload);
      }
    }
  }
}
