/**
 * Student-side course handlers (server/controllers/stcontroller.js): enrolling, the unrouted
 * lesson-completion draft with its progress formula, and the two read-only projections.
 */
module StudentController {
  import opened Common
  import opened Models

  /** The course ids of `student.enrolledCourses`, in order. */
  function CourseIds(ecs: seq<EnrolledCourse>): (r: seq<Id>)
    ensures |r| == |ecs|
    ensures forall i :: 0 <= i < |ecs| ==> r[i] == ecs[i].courseId
  {
    if ecs == [] then [] else [ecs[0].courseId] + CourseIds(ecs[1..])
  }

  /** Push `{ courseId, progress: 0 }` unless some entry already names the course. */
  function AddEnrolledCourse(ecs: seq<EnrolledCourse>, courseId: Id): seq<EnrolledCourse> {
    if courseId in CourseIds(ecs) then ecs else ecs + [EnrolledCourse(courseId, Finite(0.0))]
  }

  lemma {:induction false} CourseIdsAppend(ecs: seq<EnrolledCourse>, e: EnrolledCourse)
    ensures CourseIds(ecs + [e]) == CourseIds(ecs) + [e.courseId]
  {
  }

  /**
   * The enrolled-course list after enrolling: it contains the course, earlier entries keep their
   * values and order, and any added entry is the course at progress 0.
   */
  lemma AddEnrolledCourseSpec(ecs: seq<EnrolledCourse>, courseId: Id)
    ensures courseId in CourseIds(AddEnrolledCourse(ecs, courseId))
    ensures |ecs| <= |AddEnrolledCourse(ecs, courseId)| <= |ecs| + 1
    ensures AddEnrolledCourse(ecs, courseId)[..|ecs|] == ecs
    ensures forall i :: |ecs| <= i < |AddEnrolledCourse(ecs, courseId)| ==>
      AddEnrolledCourse(ecs, courseId)[i] == EnrolledCourse(courseId, Finite(0.0))
    ensures courseId in CourseIds(ecs) ==> AddEnrolledCourse(ecs, courseId) == ecs
  {
    if courseId !in CourseIds(ecs) {
      CourseIdsAppend(ecs, EnrolledCourse(courseId, Finite(0.0)));
    }
  }

  /** On course ids the student side is the same set-like ledger as `course.enrolledStudents`. */
  lemma AddEnrolledCourseIds(ecs: seq<EnrolledCourse>, courseId: Id)
    ensures CourseIds(AddEnrolledCourse(ecs, courseId)) == AppendIfAbsent(CourseIds(ecs), courseId)
  {
    if courseId !in CourseIds(ecs) {
      CourseIdsAppend(ecs, EnrolledCourse(courseId, Finite(0.0)));
    }
  }

  /** Enrolling twice in a course not yet enrolled leaves exactly one entry for it. */
  lemma EnrollTwiceOneEntry(ecs: seq<EnrolledCourse>, courseId: Id)
    requires courseId !in CourseIds(ecs)
    ensures AddEnrolledCourse(AddEnrolledCourse(ecs, courseId), courseId) == AddEnrolledCourse(ecs, courseId)
    ensures Count(CourseIds(AddEnrolledCourse(AddEnrolledCourse(ecs, courseId), courseId)), courseId) == 1
  {
    AddEnrolledCourseIds(ecs, courseId);
    AddEnrolledCourseSpec(ecs, courseId);
    AppendIfAbsentCount(CourseIds(ecs), courseId);
    CountZeroIffAbsent(CourseIds(ecs), courseId);
  }

  datatype EnrollReply = EnrollServerError | NotVerified | CourseNotFound | Enrolled

  /** The order of the guards of `enrollInCourse`. */
  function EnrollOutcome(studentFound: bool, verified: bool, courseFound: bool): (r: EnrollReply)
    ensures r == Enrolled <==> studentFound && verified && courseFound
    ensures r == NotVerified <==> studentFound && !verified
    ensures r == CourseNotFound <==> studentFound && verified && !courseFound
  {
    if !studentFound then EnrollServerError
    else if !verified then NotVerified
    else if !courseFound then CourseNotFound
    else Enrolled
  }

  /** The fields of a student that enrolling leaves alone. */
  function StudentRest(s: Student): (OtpState, string, string, seq<CompletedLesson>)
    reads s
  {
    (s.Otp(), s.name, s.email, s.completedLessons)
  }

  /** The fields of a course that enrolling leaves alone. */
  function CourseRest(c: Course): (string, string, string, Id, int, seq<Id>, bool)
    reads c
  {
    (c.title, c.description, c.category, c.instructor, c.price, c.lessons, c.isPublished)
  }

  /**
   * `enrollInCourse`: `student` is the document found for `req.stId` (null makes the handler throw,
   * a 500) and `course` the one found for the body's `courseId`.
   */
  method EnrollInCourse(student: Student?, courseId: Id, course: Course?) returns (r: EnrollReply)
    requires course != null ==> course.id == courseId
    modifies student, course
    ensures r == EnrollOutcome(student != null, student != null && old(student.isAccountVerified), course != null)
    ensures student != null ==> StudentRest(student) == old(StudentRest(student))
    ensures course != null ==> CourseRest(course) == old(CourseRest(course))
    ensures r != Enrolled && student != null ==> student.enrolledCourses == old(student.enrolledCourses)
    ensures r != Enrolled && course != null ==> course.enrolledStudents == old(course.enrolledStudents)
    ensures r == Enrolled ==>
              && student != null && course != null
              && course.enrolledStudents == AppendIfAbsent(old(course.enrolledStudents), student.id)
              && student.enrolledCourses == AddEnrolledCourse(old(student.enrolledCourses), courseId)
  {
    if student == null {
      return EnrollServerError;
    }
    if !student.isAccountVerified {
      return NotVerified;
    }
    if course == null {
      return CourseNotFound;
    }
    if student.id !in course.enrolledStudents {
      course.enrolledStudents := course.enrolledStudents + [student.id];
    }
    if courseId !in CourseIds(student.enrolledCourses) {
      student.enrolledCourses := student.enrolledCourses + [EnrolledCourse(courseId, Finite(0.0))];
    }
    r := Enrolled;
  }

  /** After a successful enrollment both sides name each other. */
  lemma EnrollmentSymmetric(students: seq<Id>, ecs: seq<EnrolledCourse>, studentId: Id, courseId: Id)
    ensures studentId in AppendIfAbsent(students, studentId)
    ensures courseId in CourseIds(AddEnrolledCourse(ecs, courseId))
  {
    AddEnrolledCourseSpec(ecs, courseId);
  }

  // ---------------------------------------------------------------------------------------------
  // completeLesson (unrouted draft)

  /**
   * The progress formula as the draft writes it: the numerator is `.length` of the document
   * `findOne` returns, which is `undefined`, so the value is NaN whatever the course holds.
   */
  function DraftProgress(total: nat): JsNumber
    requires total >= 1
  {
    JsMin(JsTimes(JsDivide(Undefined, total as real), 100.0), 100.0)
  }

  lemma DraftProgressIsNaN(total: nat)
    requires total >= 1
    ensures DraftProgress(total) == NaN
  {
  }

  /** The draft's formula with the number of completed lessons of the course as numerator. */
  function CourseProgress(completed: nat, total: nat): JsNumber
    requires total >= 1
  {
    JsMin(JsTimes(JsDivide(Finite(completed as real), total as real), 100.0), 100.0)
  }

  /** The progress is a finite percentage, and it is 100 exactly when every lesson is done. */
  lemma CourseProgressBounds(completed: nat, total: nat)
    requires total >= 1
    ensures CourseProgress(completed, total).Finite?
    ensures 0.0 <= CourseProgress(completed, total).value <= 100.0
    ensures CourseProgress(completed, total).value == 100.0 <==> completed >= total
    ensures CourseProgress(completed, total).value == 0.0 <==> completed == 0
  {
    RatioFacts(completed as real, total as real);
  }

  /** The ratio of a count to a positive total, scaled to a percentage. */
  lemma RatioFacts(c: real, t: real)
    requires c >= 0.0 && t >= 1.0
    ensures 0.0 <= c / t * 100.0
    ensures c / t * 100.0 >= 100.0 <==> c >= t
    ensures c / t * 100.0 == 0.0 <==> c == 0.0
  {
    var q := c / t;
    assert q * t == c;
    RealMulCompare(q, 0.0, t);
    RealMulCompare(q, 1.0, t);
  }

  lemma RealMulCompare(x: real, y: real, t: real)
    requires t > 0.0
    ensures x < y <==> x * t < y * t
    ensures x == y <==> x * t == y * t
  {
  }

  /** The lesson ids of a completion ledger, in order. */
  function LessonIds(done: seq<CompletedLesson>): (r: seq<Option<Id>>)
    ensures |r| == |done|
    ensures forall i :: 0 <= i < |done| ==> r[i] == done[i].lessonId
  {
    if done == [] then [] else [done[0].lessonId] + LessonIds(done[1..])
  }

  /** How many of `ls` appear among the completed lesson ids. */
  function CountCompleted(ls: seq<Lesson>, doneIds: seq<Option<Id>>): (n: nat)
    ensures n <= |ls|
    ensures n == |ls| <==> forall i :: 0 <= i < |ls| ==> Some(ls[i].id) in doneIds
  {
    if ls == [] then 0
    else (if Some(ls[0].id) in doneIds then 1 else 0) + CountCompleted(ls[1..], doneIds)
  }

  /** The position of the first entry for `courseId`. */
  function IndexOfCourse(ecs: seq<EnrolledCourse>, courseId: Id): (k: nat)
    requires courseId in CourseIds(ecs)
    ensures k < |ecs| && ecs[k].courseId == courseId
    ensures forall j :: 0 <= j < k ==> ecs[j].courseId != courseId
  {
    if ecs[0].courseId == courseId then 0 else 1 + IndexOfCourse(ecs[1..], courseId)
  }

  /** `$set` of `enrolledCourses.$.progress`: only the first entry for the course, if there is one. */
  function SetCourseProgress(ecs: seq<EnrolledCourse>, courseId: Id, p: JsNumber): (r: seq<EnrolledCourse>)
    ensures |r| == |ecs|
  {
    if ecs == [] then []
    else if ecs[0].courseId == courseId then [ecs[0].(progress := p)] + ecs[1..]
    else [ecs[0]] + SetCourseProgress(ecs[1..], courseId, p)
  }

  /** Without an entry for the course the positional update changes nothing. */
  lemma {:induction false} SetCourseProgressAbsent(ecs: seq<EnrolledCourse>, courseId: Id, p: JsNumber)
    requires courseId !in CourseIds(ecs)
    ensures SetCourseProgress(ecs, courseId, p) == ecs
  {
    if ecs != [] {
      assert CourseIds(ecs) == [ecs[0].courseId] + CourseIds(ecs[1..]);
      SetCourseProgressAbsent(ecs[1..], courseId, p);
      assert [ecs[0]] + ecs[1..] == ecs;
    }
  }

  /** The positional update changes the progress of the first entry for the course and nothing else. */
  lemma {:induction false} SetCourseProgressAt(ecs: seq<EnrolledCourse>, courseId: Id, p: JsNumber, k: nat)
    requires k < |ecs| && ecs[k].courseId == courseId
    requires forall j :: 0 <= j < k ==> ecs[j].courseId != courseId
    ensures SetCourseProgress(ecs, courseId, p) == ecs[k := ecs[k].(progress := p)]
  {
    if k == 0 {
      assert [ecs[0].(progress := p)] + ecs[1..] == ecs[0 := ecs[0].(progress := p)];
    } else {
      var tail := ecs[1..];
      SetCourseProgressAt(tail, courseId, p, k - 1);
      assert SetCourseProgress(ecs, courseId, p) == [ecs[0]] + tail[k - 1 := tail[k - 1].(progress := p)];
      assert [ecs[0]] + tail[k - 1 := tail[k - 1].(progress := p)] == ecs[k := ecs[k].(progress := p)];
    }
  }

  /** The positional update touches exactly the first entry for the course, and none when there is none. */
  lemma SetCourseProgressSpec(ecs: seq<EnrolledCourse>, courseId: Id, p: JsNumber)
    ensures courseId !in CourseIds(ecs) ==> SetCourseProgress(ecs, courseId, p) == ecs
    ensures courseId in CourseIds(ecs) ==>
      var k := IndexOfCourse(ecs, courseId);
      SetCourseProgress(ecs, courseId, p) == ecs[k := ecs[k].(progress := p)]
  {
    if courseId in CourseIds(ecs) {
      SetCourseProgressAt(ecs, courseId, p, IndexOfCourse(ecs, courseId));
    } else {
      SetCourseProgressAbsent(ecs, courseId, p);
    }
  }

  /** The filter `{ studentId, courseId }` of the Enrollment update. */
  predicate IsEnrollmentOf(d: EnrollmentRecord, studentId: Id, courseId: Id) {
    d.studentId == studentId && d.courseId == courseId
  }

  /** `EnrollmentModel.updateOne({ studentId, courseId }, { progress })`: the first matching record. */
  function SetEnrollmentProgress(docs: seq<EnrollmentRecord>, studentId: Id, courseId: Id, p: JsNumber)
    : (r: seq<EnrollmentRecord>)
    ensures |r| == |docs|
    ensures forall i :: 0 <= i < |docs| ==>
      r[i] == docs[i] || (r[i] == docs[i].(progress := p) && IsEnrollmentOf(docs[i], studentId, courseId))
    ensures forall i :: 0 <= i < |docs| && r[i] != docs[i] ==>
      forall j :: 0 <= j < |docs| && j != i ==> r[j] == docs[j]
  {
    if docs == [] then []
    else if IsEnrollmentOf(docs[0], studentId, courseId) then [docs[0].(progress := p)] + docs[1..]
    else [docs[0]] + SetEnrollmentProgress(docs[1..], studentId, courseId, p)
  }

  /** Without a matching record `updateOne` changes nothing. */
  lemma {:induction false} SetEnrollmentProgressAbsent(docs: seq<EnrollmentRecord>, studentId: Id, courseId: Id,
                                                       p: JsNumber)
    requires forall i :: 0 <= i < |docs| ==> !IsEnrollmentOf(docs[i], studentId, courseId)
    ensures SetEnrollmentProgress(docs, studentId, courseId, p) == docs
  {
    if docs != [] {
      assert !IsEnrollmentOf(docs[0], studentId, courseId);
      var tail := docs[1..];
      assert forall i :: 0 <= i < |tail| ==> tail[i] == docs[i + 1];
      SetEnrollmentProgressAbsent(tail, studentId, courseId, p);
      assert [docs[0]] + tail == docs;
    }
  }

  /** `updateOne` sets the progress of the first matching record, at position `k`, and of no other. */
  lemma {:induction false} SetEnrollmentProgressAt(docs: seq<EnrollmentRecord>, studentId: Id, courseId: Id,
                                                   p: JsNumber, k: nat)
    requires k < |docs| && IsEnrollmentOf(docs[k], studentId, courseId)
    requires forall j :: 0 <= j < k ==> !IsEnrollmentOf(docs[j], studentId, courseId)
    ensures SetEnrollmentProgress(docs, studentId, courseId, p) == docs[k := docs[k].(progress := p)]
  {
    if k == 0 {
      assert [docs[0].(progress := p)] + docs[1..] == docs[0 := docs[0].(progress := p)];
    } else {
      assert !IsEnrollmentOf(docs[0], studentId, courseId);
      var tail := docs[1..];
      assert forall j :: 0 <= j < k - 1 ==> tail[j] == docs[j + 1];
      SetEnrollmentProgressAt(tail, studentId, courseId, p, k - 1);
      assert [docs[0]] + tail[k - 1 := tail[k - 1].(progress := p)] == docs[k := docs[k].(progress := p)];
    }
  }

  /** The Enrollment collection, updated in place by `updateOne`. */
  class EnrollmentCollection {
    var docs: seq<EnrollmentRecord>

    constructor ()
      ensures docs == []
    {
      docs := [];
    }
  }

  datatype CompleteReply = LessonNotFound | CompleteServerError | LessonCompleted(progress: JsNumber)

  /**
   * `completeLesson` with the corrected numerator: the reply's progress, the student's entry for
   * the lesson's course and the Enrollment record all receive the same percentage.
   */
  method CompleteLesson(stId: Id, student: Student?, lessonId: Id, lessons: seq<Lesson>,
                        enrollments: EnrollmentCollection)
    returns (r: CompleteReply)
    requires student != null ==> student.id == stId
    modifies student, enrollments
    ensures FindLesson(lessons, lessonId).None? ==> r == LessonNotFound
    ensures FindLesson(lessons, lessonId).Some? && student == null ==> r == CompleteServerError
    ensures FindLesson(lessons, lessonId).Some? && student != null ==> r.LessonCompleted?
    ensures r.LessonNotFound? || r.CompleteServerError? ==> enrollments.docs == old(enrollments.docs)
    ensures r.LessonNotFound? && student != null ==>
              student.completedLessons == old(student.completedLessons)
              && student.enrolledCourses == old(student.enrolledCourses)
    ensures student != null ==> StudentRest(student).0 == old(StudentRest(student).0)
    ensures student != null ==> student.name == old(student.name) && student.email == old(student.email)
    ensures r.LessonCompleted? ==>
              && student != null && FindLesson(lessons, lessonId).Some?
              && var lesson := FindLesson(lessons, lessonId).value;
                 var course := LessonsOf(lessons, lesson.courseId);
                 && student.completedLessons == old(student.completedLessons) + [CompletedLesson(None, Some(lessonId))]
                 && |course| >= 1
                 && r.progress == CourseProgress(CountCompleted(course, LessonIds(student.completedLessons)), |course|)
                 && student.enrolledCourses == SetCourseProgress(old(student.enrolledCourses), lesson.courseId, r.progress)
                 && enrollments.docs == SetEnrollmentProgress(old(enrollments.docs), stId, lesson.courseId, r.progress)
  {
    var found := FindLesson(lessons, lessonId);
    if found.None? {
      return LessonNotFound;
    }
    var lesson := found.value;
    if student == null {
      return CompleteServerError;
    }
    student.completedLessons := student.completedLessons + [CompletedLesson(None, Some(lessonId))];
    var course := LessonsOf(lessons, lesson.courseId);
    assert lesson in course;
    var completed := CountCompleted(course, LessonIds(student.completedLessons));
    var progress := CourseProgress(completed, |course|);
    student.enrolledCourses := SetCourseProgress(student.enrolledCourses, lesson.courseId, progress);
    enrollments.docs := SetEnrollmentProgress(enrollments.docs, stId, lesson.courseId, progress);
    r := LessonCompleted(progress);
  }

  /** The completed lesson itself always counts, so a successful completion reports positive progress. */
  lemma CompletedLessonCounts(lessons: seq<Lesson>, lessonId: Id, done: seq<CompletedLesson>)
    requires FindLesson(lessons, lessonId).Some?
    ensures var course := LessonsOf(lessons, FindLesson(lessons, lessonId).value.courseId);
            CountCompleted(course, LessonIds(done + [CompletedLesson(None, Some(lessonId))])) >= 1
  {
    var lesson := FindLesson(lessons, lessonId).value;
    var course := LessonsOf(lessons, lesson.courseId);
    var ids := LessonIds(done + [CompletedLesson(None, Some(lessonId))]);
    assert ids[|done|] == Some(lessonId);
    assert lesson in course;
    CountCompletedMember(course, ids, lesson);
  }

  lemma {:induction false} CountCompletedMember(ls: seq<Lesson>, doneIds: seq<Option<Id>>, l: Lesson)
    requires l in ls && Some(l.id) in doneIds
    ensures CountCompleted(ls, doneIds) >= 1
  {
    if ls[0] != l {
      CountCompletedMember(ls[1..], doneIds, l);
    }
  }

  // ---------------------------------------------------------------------------------------------
  // Projections

  datatype ProgressView = ProgressView(courseId: Id, progress: JsNumber)

  /** The `stData` object; it has no `completedLessons` member. */
  datatype StData = StData(name: string, email: string, isAccountVerified: bool,
                           enrolledCourses: seq<EnrolledCourse>, progress: seq<ProgressView>)

  /** `getStudentData`: None is the 404 for a missing student. */
  function GetStudentData(student: Student?): (r: Option<StData>)
    reads student
    ensures r.None? <==> student == null
    ensures r.Some? ==>
      && r.value.name == student.name && r.value.email == student.email
      && r.value.isAccountVerified == student.isAccountVerified
      && r.value.enrolledCourses == student.enrolledCourses
      && |r.value.progress| == |student.enrolledCourses|
      && forall i :: 0 <= i < |r.value.progress| ==>
           r.value.progress[i].courseId == student.enrolledCourses[i].courseId
           && r.value.progress[i].progress == student.enrolledCourses[i].progress
  {
    if student == null then None
    else Some(StData(student.name, student.email, student.isAccountVerified, student.enrolledCourses,
                     ProgressOf(student.enrolledCourses)))
  }

  function ProgressOf(ecs: seq<EnrolledCourse>): (r: seq<ProgressView>)
    ensures |r| == |ecs|
    ensures forall i :: 0 <= i < |ecs| ==> r[i] == ProgressView(ecs[i].courseId, ecs[i].progress)
  {
    if ecs == [] then [] else [ProgressView(ecs[0].courseId, ecs[0].progress)] + ProgressOf(ecs[1..])
  }

  /** What populate supplies for a course id that still has a document. */
  datatype CourseSummary = CourseSummary(title: string, category: string)

  datatype EnrolledView = EnrolledView(id: Id, title: string, category: string, progress: JsNumber)

  datatype EnrolledReply = EnrolledNotFound | EnrolledServerError | EnrolledList(courses: seq<EnrolledView>)

  /**
   * `getEnrolledCourses` (stcontroller.js): 404 for a missing student; an entry whose course no longer
   * exists populates to null and `c.courseId._id` throws, a 500.
   */
  function GetEnrolledCourses(student: Student?, catalog: map<Id, CourseSummary>): (r: EnrolledReply)
    reads student
    ensures r.EnrolledNotFound? <==> student == null
    ensures r.EnrolledServerError? <==>
      student != null && exists i :: 0 <= i < |student.enrolledCourses| && student.enrolledCourses[i].courseId !in catalog
    ensures r.EnrolledList? ==>
      && |r.courses| == |student.enrolledCourses|
      && forall i :: 0 <= i < |r.courses| ==>
           var e := student.enrolledCourses[i];
           e.courseId in catalog
           && r.courses[i] == EnrolledView(e.courseId, catalog[e.courseId].title, catalog[e.courseId].category, e.progress)
  {
    if student == null then EnrolledNotFound
    else
      match Views(student.enrolledCourses, catalog)
      case None => EnrolledServerError
      case Some(vs) => EnrolledList(vs)
  }

  function Views(ecs: seq<EnrolledCourse>, catalog: map<Id, CourseSummary>): (r: Option<seq<EnrolledView>>)
    ensures r.None? <==> exists i :: 0 <= i < |ecs| && ecs[i].courseId !in catalog
    ensures r.Some? ==>
      && |r.value| == |ecs|
      && forall i :: 0 <= i < |ecs| ==>
           ecs[i].courseId in catalog
           && r.value[i] == EnrolledView(ecs[i].courseId, catalog[ecs[i].courseId].title,
                                         catalog[ecs[i].courseId].category, ecs[i].progress)
  {
    if ecs == [] then Some([])
    else if ecs[0].courseId !in catalog then None
    else
      match Views(ecs[1..], catalog)
      case None =>
        assert exists i :: 0 <= i < |ecs[1..]| && ecs[1..][i].courseId !in catalog;
        var i :| 0 <= i < |ecs[1..]| && ecs[1..][i].courseId !in catalog;
        assert ecs[i + 1].courseId !in catalog;
        None
      case Some(vs) =>
        var c := catalog[ecs[0].courseId];
        Some([EnrolledView(ecs[0].courseId, c.title, c.category, ecs[0].progress)] + vs)
  }
}
