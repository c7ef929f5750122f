/**
 * The two inline handlers of server/routes/stRoutes.js: the routed `/complete-lesson` ledger
 * update and the `/get-completed-lessons/:courseId` projection.
 */
module StudentRoutes {
  import opened Common
  import opened Models
  import StudentController

  /** No lesson id occurs twice. */
  predicate Distinct(s: seq<Option<Id>>) {
    forall i, j :: 0 <= i < j < |s| ==> s[i] != s[j]
  }

  /** Every record carries a lesson id. */
  predicate AllPresent(done: seq<CompletedLesson>) {
    forall i :: 0 <= i < |done| ==> done[i].lessonId.Some?
  }

  /**
   * `completedLessons.some(l => l.lessonId.toString() === lessonId)`, scanned in order: `None` when a
   * record without a lesson id is reached first, where `toString` of `undefined` throws.
   */
  function AlreadyDone(done: seq<CompletedLesson>, lessonId: Option<Id>): Option<bool> {
    if done == [] then Some(false)
    else if done[0].lessonId.None? then None
    else if done[0].lessonId == lessonId then Some(true)
    else AlreadyDone(done[1..], lessonId)
  }

  /** The scan throws exactly when a record without a lesson id comes before every matching record. */
  lemma {:induction false} AlreadyDoneThrowsIff(done: seq<CompletedLesson>, lessonId: Option<Id>)
    ensures AlreadyDone(done, lessonId).None? <==>
      exists i :: 0 <= i < |done| && done[i].lessonId.None? &&
        forall j :: 0 <= j < i ==> done[j].lessonId != lessonId
  {
    if done != [] {
      var tail := done[1..];
      AlreadyDoneThrowsIff(tail, lessonId);
      if done[0].lessonId.None? {
        // position 0 is the witness and nothing precedes it
      } else if done[0].lessonId == lessonId {
        forall i | 0 <= i < |done| && done[i].lessonId.None?
          ensures exists j :: 0 <= j < i && done[j].lessonId == lessonId
        {
          assert i != 0;
        }
      } else {
        if exists i :: 0 <= i < |done| && done[i].lessonId.None? &&
             forall j :: 0 <= j < i ==> done[j].lessonId != lessonId {
          var i :| 0 <= i < |done| && done[i].lessonId.None? &&
            forall j :: 0 <= j < i ==> done[j].lessonId != lessonId;
          assert i != 0;
          assert tail[i - 1] == done[i];
          assert forall j :: 0 <= j < i - 1 ==> tail[j] == done[j + 1];
        }
        if exists i :: 0 <= i < |tail| && tail[i].lessonId.None? &&
             forall j :: 0 <= j < i ==> tail[j].lessonId != lessonId {
          var i :| 0 <= i < |tail| && tail[i].lessonId.None? &&
            forall j :: 0 <= j < i ==> tail[j].lessonId != lessonId;
          assert done[i + 1] == tail[i];
          assert forall j :: 1 <= j < i + 1 ==> done[j] == tail[j - 1];
        }
      }
    }
  }

  /** When the scan completes, its answer is whether the lesson id is recorded. */
  lemma {:induction false} AlreadyDoneAnswer(done: seq<CompletedLesson>, lessonId: Option<Id>)
    ensures AlreadyDone(done, lessonId).Some? ==>
      AlreadyDone(done, lessonId).value == (lessonId in StudentController.LessonIds(done))
  {
    if done != [] {
      var tail := done[1..];
      AlreadyDoneAnswer(tail, lessonId);
      assert StudentController.LessonIds(done) == [done[0].lessonId] + StudentController.LessonIds(tail);
    }
  }

  /** Over records that all carry a lesson id the scan never throws. */
  lemma {:induction false} AlreadyDoneTotal(done: seq<CompletedLesson>, lessonId: Option<Id>)
    requires AllPresent(done)
    ensures AlreadyDone(done, lessonId) == Some(lessonId in StudentController.LessonIds(done))
  {
    AlreadyDoneThrowsIff(done, lessonId);
    AlreadyDoneAnswer(done, lessonId);
  }

  /**
   * `if (!alreadyDone) push({ courseId, lessonId })`: the key is the lesson id alone; both ids
   * are stored as sent, possibly `undefined`.
   */
  function MarkCompleted(done: seq<CompletedLesson>, courseId: Option<Id>, lessonId: Option<Id>): seq<CompletedLesson> {
    if lessonId in StudentController.LessonIds(done) then done else done + [CompletedLesson(courseId, lessonId)]
  }

  lemma {:induction false} LessonIdsAppend(done: seq<CompletedLesson>, e: CompletedLesson)
    ensures StudentController.LessonIds(done + [e]) == StudentController.LessonIds(done) + [e.lessonId]
  {
  }

  /** The ledger only grows at its end, by at most one record, and afterwards holds the lesson. */
  lemma MarkCompletedAppendOnly(done: seq<CompletedLesson>, courseId: Option<Id>, lessonId: Option<Id>)
    ensures |done| <= |MarkCompleted(done, courseId, lessonId)| <= |done| + 1
    ensures MarkCompleted(done, courseId, lessonId)[..|done|] == done
    ensures lessonId in StudentController.LessonIds(MarkCompleted(done, courseId, lessonId))
    ensures lessonId !in StudentController.LessonIds(done) ==>
      MarkCompleted(done, courseId, lessonId) == done + [CompletedLesson(courseId, lessonId)]
  {
    if lessonId !in StudentController.LessonIds(done) {
      LessonIdsAppend(done, CompletedLesson(courseId, lessonId));
    }
  }

  /** Repeating the call with the same lesson id changes nothing, whatever course id it carries. */
  lemma MarkCompletedIdempotent(done: seq<CompletedLesson>, c1: Option<Id>, c2: Option<Id>, lessonId: Option<Id>)
    ensures MarkCompleted(MarkCompleted(done, c1, lessonId), c2, lessonId) == MarkCompleted(done, c1, lessonId)
  {
    MarkCompletedAppendOnly(done, c1, lessonId);
  }

  /** A ledger written only by this handler never holds a lesson id twice. */
  lemma MarkCompletedKeepsDistinct(done: seq<CompletedLesson>, courseId: Option<Id>, lessonId: Option<Id>)
    requires Distinct(StudentController.LessonIds(done))
    ensures Distinct(StudentController.LessonIds(MarkCompleted(done, courseId, lessonId)))
  {
    if lessonId !in StudentController.LessonIds(done) {
      LessonIdsAppend(done, CompletedLesson(courseId, lessonId));
    }
  }

  /** Requests that carry a lesson id keep every record's lesson id present. */
  lemma MarkCompletedKeepsPresent(done: seq<CompletedLesson>, courseId: Option<Id>, lessonId: Id)
    requires AllPresent(done)
    ensures AllPresent(MarkCompleted(done, courseId, Some(lessonId)))
  {
  }

  datatype CompleteRouteReply = CompleteRouteThrows | LessonMarked

  /** The fields of the student other than `completedLessons`. */
  function OtherFields(s: Student): (OtpState, string, string, seq<EnrolledCourse>)
    reads s
  {
    (s.Otp(), s.name, s.email, s.enrolledCourses)
  }

  /**
   * The `/complete-lesson` handler. A missing student makes `student.completedLessons` throw, and so
   * does the scan when it reaches a record without a lesson id; neither is inside a try block, so the
   * request gets no reply. Otherwise the answer is always success. No enrollment, lesson or course
   * check is made, and a request without `lessonId` stores a record without one.
   */
  method CompleteLessonRoute(student: Student?, courseId: Option<Id>, lessonId: Option<Id>)
    returns (r: CompleteRouteReply)
    modifies student
    ensures r == LessonMarked <==> student != null && AlreadyDone(old(student.completedLessons), lessonId).Some?
    ensures student != null && r == CompleteRouteThrows ==> student.completedLessons == old(student.completedLessons)
    ensures student != null && r == LessonMarked ==>
              student.completedLessons == MarkCompleted(old(student.completedLessons), courseId, lessonId)
    ensures student != null ==> OtherFields(student) == old(OtherFields(student))
  {
    if student == null {
      return CompleteRouteThrows;
    }
    var alreadyDone := AlreadyDone(student.completedLessons, lessonId);
    if alreadyDone.None? {
      return CompleteRouteThrows;
    }
    AlreadyDoneAnswer(student.completedLessons, lessonId);
    if !alreadyDone.value {
      student.completedLessons := student.completedLessons + [CompletedLesson(courseId, lessonId)];
    }
    r := LessonMarked;
  }

  /**
   * Once a request without `lessonId` has been stored, every later request for a lesson not
   * recorded before it throws.
   */
  lemma AbsentLessonIdPoisons(done: seq<CompletedLesson>, courseId: Option<Id>, lessonId: Option<Id>)
    requires None !in StudentController.LessonIds(done)
    requires lessonId !in StudentController.LessonIds(done)
    ensures AlreadyDone(MarkCompleted(done, courseId, None), lessonId).None?
  {
    var after := MarkCompleted(done, courseId, None);
    LessonIdsAppend(done, CompletedLesson(courseId, None));
    assert after == done + [CompletedLesson(courseId, None)];
    assert after[|done|].lessonId.None?;
    forall j | 0 <= j < |done|
      ensures after[j].lessonId != lessonId
    {
      assert after[j] == done[j];
      assert StudentController.LessonIds(done)[j] == done[j].lessonId;
    }
    AlreadyDoneThrowsIff(after, lessonId);
  }

  /** `String(e.courseId) === String(courseId)`. */
  predicate Matches(e: CompletedLesson, courseId: Option<Id>) {
    Str(e.courseId) == Str(courseId)
  }

  /**
   * `completedLessons.filter(e => String(e.courseId) === String(courseId)).map(e => e.lessonId)`:
   * stored order is kept.
   */
  function CompletedIdsFor(done: seq<CompletedLesson>, courseId: Option<Id>): (r: seq<Option<Id>>)
    ensures |r| <= |done|
  {
    if done == [] then []
    else (if Matches(done[0], courseId) then [done[0].lessonId] else []) + CompletedIdsFor(done[1..], courseId)
  }

  /** Exactly the lesson ids of the matching records are listed. */
  lemma {:induction false} CompletedIdsForMembers(done: seq<CompletedLesson>, courseId: Option<Id>, l: Option<Id>)
    ensures l in CompletedIdsFor(done, courseId) <==>
      exists i :: 0 <= i < |done| && done[i].lessonId == l && Matches(done[i], courseId)
  {
    if done != [] {
      var tail := done[1..];
      CompletedIdsForMembers(tail, courseId, l);
      if exists i :: 0 <= i < |done| && done[i].lessonId == l && Matches(done[i], courseId) {
        var i :| 0 <= i < |done| && done[i].lessonId == l && Matches(done[i], courseId);
        if i > 0 {
          assert tail[i - 1] == done[i];
        }
      }
      if exists i :: 0 <= i < |tail| && tail[i].lessonId == l && Matches(tail[i], courseId) {
        var i :| 0 <= i < |tail| && tail[i].lessonId == l && Matches(tail[i], courseId);
        assert done[i + 1] == tail[i];
      }
    }
  }

  /** The projection distributes over appending records. */
  lemma {:induction false} CompletedIdsForAppend(a: seq<CompletedLesson>, b: seq<CompletedLesson>, courseId: Option<Id>)
    ensures CompletedIdsFor(a + b, courseId) == CompletedIdsFor(a, courseId) + CompletedIdsFor(b, courseId)
  {
    if a == [] {
      assert a + b == b;
    } else {
      assert (a + b)[0] == a[0];
      assert (a + b)[1..] == a[1..] + b;
      CompletedIdsForAppend(a[1..], b, courseId);
      var h := if Matches(a[0], courseId) then [a[0].lessonId] else [];
      assert CompletedIdsFor(a + b, courseId) == h + CompletedIdsFor(a[1..] + b, courseId);
      assert CompletedIdsFor(a, courseId) == h + CompletedIdsFor(a[1..], courseId);
    }
  }

  /** A newly marked lesson shows up for the course it was marked under, at the end. */
  lemma MarkThenList(done: seq<CompletedLesson>, courseId: Id, lessonId: Id)
    requires Some(lessonId) !in StudentController.LessonIds(done)
    ensures CompletedIdsFor(MarkCompleted(done, Some(courseId), Some(lessonId)), Some(courseId)) ==
      CompletedIdsFor(done, Some(courseId)) + [Some(lessonId)]
  {
    CompletedIdsForAppend(done, [CompletedLesson(Some(courseId), Some(lessonId))], Some(courseId));
  }

  /** `completedLessonIds`; a record without a lesson id contributes `null`, here `None`. */
  datatype CompletedReply = CompletedNotFound | CompletedIds(ids: seq<Option<Id>>)

  /**
   * The handler as written: it filters by `req.body.courseId` and ignores the path parameter
   * `pathCourseId`. No state is written.
   */
  function GetCompletedLessonsAsWritten(student: Student?, bodyCourseId: Option<Id>, pathCourseId: Id)
    : (r: CompletedReply)
    reads student
    ensures r.CompletedNotFound? <==> student == null
  {
    if student == null then CompletedNotFound
    else CompletedIds(CompletedIdsFor(student.completedLessons, bodyCourseId))
  }

  /**
   * The course page sends this GET without a body, so the filter compares each record with
   * "undefined": lessons marked under a real course id never come back.
   */
  lemma BodylessRequestListsNothing(student: Student, pathCourseId: Id)
    requires forall i :: 0 <= i < |student.completedLessons| ==>
      student.completedLessons[i].courseId.Some? && student.completedLessons[i].courseId.value != "undefined"
    ensures GetCompletedLessonsAsWritten(student, None, pathCourseId) == CompletedIds([])
  {
    var ids := CompletedIdsFor(student.completedLessons, None);
    if ids != [] {
      CompletedIdsForMembers(student.completedLessons, None, ids[0]);
    }
  }

  /** The handler with the filter taken from the path, as the route declares. */
  function GetCompletedLessons(student: Student?, pathCourseId: Id): (r: CompletedReply)
    reads student
    ensures r.CompletedNotFound? <==> student == null
    ensures r.CompletedIds? ==> |r.ids| <= |student.completedLessons|
  {
    if student == null then CompletedNotFound
    else CompletedIds(CompletedIdsFor(student.completedLessons, Some(pathCourseId)))
  }

  /** Through the path parameter exactly the lessons recorded under that course are listed. */
  lemma GetCompletedLessonsMembers(student: Student, pathCourseId: Id, l: Id)
    ensures Some(l) in GetCompletedLessons(student, pathCourseId).ids <==>
      exists i :: 0 <= i < |student.completedLessons| &&
        student.completedLessons[i].lessonId == Some(l) && Str(student.completedLessons[i].courseId) == pathCourseId
  {
    CompletedIdsForMembers(student.completedLessons, Some(pathCourseId), Some(l));
  }

  /** Through the path parameter a lesson marked under the course is listed for it. */
  lemma MarkedLessonIsListed(done: seq<CompletedLesson>, courseId: Id, lessonId: Id)
    ensures Some(lessonId) !in StudentController.LessonIds(done) ==>
      Some(lessonId) in CompletedIdsFor(MarkCompleted(done, Some(courseId), Some(lessonId)), Some(courseId))
  {
    if Some(lessonId) !in StudentController.LessonIds(done) {
      MarkThenList(done, courseId, lessonId);
    }
  }
}
