/**
 * Lesson handlers of server/controllers/lessonController.js: appending a lesson to a course and
 * listing a course's lessons by their `order`.
 */
module LessonController {
  import opened Common
  import opened Models

  /** The lesson collection, appended to by `lesson.save()`. */
  class LessonCollection {
    var docs: seq<Lesson>

    constructor ()
      ensures docs == []
    {
      docs := [];
    }
  }

  /** The `enum` of `contentType` in server/models/Lesson.js. */
  predicate ContentTypeValid(contentType: string) {
    contentType == "video" || contentType == "text"
  }

  /** Every lesson listed by the course names the course back. */
  predicate LessonsBelong(course: Course, docs: seq<Lesson>)
    reads course
  {
    forall i :: 0 <= i < |docs| && docs[i].id in course.lessons ==> docs[i].courseId == course.id
  }

  datatype AddLessonReply = LessonFieldsRequired | LessonCourseNotFound | LessonInvalid | LessonAdded(lesson: Lesson)

  /** The order of the checks of `addLesson`. */
  function AddLessonOutcome(courseId: Id, title: string, contentType: string, contentUrl: string,
                            courseFound: bool, newId: Id): (r: AddLessonReply)
    ensures r == LessonFieldsRequired <==> courseId == "" || title == "" || contentType == "" || contentUrl == ""
    ensures r == LessonCourseNotFound <==>
      courseId != "" && title != "" && contentType != "" && contentUrl != "" && !courseFound
    ensures r == LessonInvalid <==>
      courseId != "" && title != "" && contentType != "" && contentUrl != "" && courseFound
      && !ContentTypeValid(contentType)
    ensures r.LessonAdded? ==> r.lesson == Lesson(newId, title, contentType, contentUrl, courseId, 0)
  {
    if courseId == "" || title == "" || contentType == "" || contentUrl == "" then LessonFieldsRequired
    else if !courseFound then LessonCourseNotFound
    else if !ContentTypeValid(contentType) then LessonInvalid
    else LessonAdded(Lesson(newId, title, contentType, contentUrl, courseId, 0))
  }

  /**
   * `addLesson`: after the field and course checks a new lesson (order 0 by default) is saved, which
   * fails on a content type outside the enum, and its id `newId` is pushed onto `course.lessons`.
   */
  method AddLesson(store: LessonCollection, courseId: Id, title: string, contentType: string, contentUrl: string,
                   course: Course?, newId: Id)
    returns (r: AddLessonReply)
    requires course != null ==> course.id == courseId
    requires forall i :: 0 <= i < |store.docs| ==> store.docs[i].id != newId
    modifies store, course
    ensures r == AddLessonOutcome(courseId, title, contentType, contentUrl, course != null, newId)
    ensures !r.LessonAdded? ==> store.docs == old(store.docs)
    ensures !r.LessonAdded? && course != null ==> course.lessons == old(course.lessons)
    ensures course != null ==>
              && course.title == old(course.title) && course.description == old(course.description)
              && course.category == old(course.category) && course.instructor == old(course.instructor)
              && course.price == old(course.price) && course.enrolledStudents == old(course.enrolledStudents)
              && course.isPublished == old(course.isPublished)
    ensures r.LessonAdded? ==>
              && course != null
              && store.docs == old(store.docs) + [r.lesson]
              && course.lessons == old(course.lessons) + [newId]
    ensures course != null && old(LessonsBelong(course, store.docs)) ==> LessonsBelong(course, store.docs)
  {
    if courseId == "" || title == "" || contentType == "" || contentUrl == "" {
      return LessonFieldsRequired;
    }
    if course == null {
      return LessonCourseNotFound;
    }
    if !ContentTypeValid(contentType) {
      return LessonInvalid;
    }
    var lesson := Lesson(newId, title, contentType, contentUrl, courseId, 0);
    store.docs := store.docs + [lesson];
    course.lessons := course.lessons + [newId];
    r := LessonAdded(lesson);
  }

  /** Non-decreasing by `order`. */
  predicate SortedByOrder(s: seq<Lesson>) {
    forall i, j :: 0 <= i < j < |s| ==> s[i].order <= s[j].order
  }

  /** Insert one lesson into a sorted list, after the lessons of equal or smaller order. */
  function Insert(l: Lesson, s: seq<Lesson>): (r: seq<Lesson>)
    ensures |r| == |s| + 1
  {
    if s == [] then [l]
    else if l.order < s[0].order then [l] + s
    else [s[0]] + Insert(l, s[1..])
  }

  lemma {:induction false} InsertMultiset(l: Lesson, s: seq<Lesson>)
    ensures multiset(Insert(l, s)) == multiset(s) + multiset{l}
  {
    if s != [] && l.order >= s[0].order {
      InsertMultiset(l, s[1..]);
      assert s == [s[0]] + s[1..];
    }
  }

  /** A bound below the list and the new lesson stays below the result. */
  lemma {:induction false} InsertLowerBound(l: Lesson, s: seq<Lesson>, b: int)
    requires b <= l.order && forall k :: 0 <= k < |s| ==> b <= s[k].order
    ensures forall k :: 0 <= k < |Insert(l, s)| ==> b <= Insert(l, s)[k].order
  {
    if s != [] && l.order >= s[0].order {
      InsertLowerBound(l, s[1..], b);
    }
  }

  lemma {:induction false} InsertSorted(l: Lesson, s: seq<Lesson>)
    requires SortedByOrder(s)
    ensures SortedByOrder(Insert(l, s))
  {
    if s != [] && l.order >= s[0].order {
      InsertSorted(l, s[1..]);
      InsertLowerBound(l, s[1..], s[0].order);
    }
  }

  /** `.sort({ order: 1 })`, as an insertion sort. */
  function SortByOrder(s: seq<Lesson>): (r: seq<Lesson>)
    ensures SortedByOrder(r)
    ensures multiset(r) == multiset(s)
  {
    if s == [] then []
    else
      var rest := SortByOrder(s[1..]);
      InsertSorted(s[0], rest);
      InsertMultiset(s[0], rest);
      assert s == [s[0]] + s[1..];
      Insert(s[0], rest)
  }

  /**
   * `getLessonsByCourse`: the course's lessons ordered by `order`. MongoDB leaves the relative order
   * of equal `order` values open; this model fixes one.
   */
  function GetLessonsByCourse(store: LessonCollection, courseId: Id): (r: seq<Lesson>)
    reads store
    ensures SortedByOrder(r)
    ensures multiset(r) == multiset(LessonsOf(store.docs, courseId))
    ensures forall i :: 0 <= i < |r| ==> r[i].courseId == courseId && r[i] in store.docs
  {
    var r := SortByOrder(LessonsOf(store.docs, courseId));
    assert forall i :: 0 <= i < |r| ==> r[i] in LessonsOf(store.docs, courseId) by {
      forall i | 0 <= i < |r| ensures r[i] in LessonsOf(store.docs, courseId) {
        assert r[i] in multiset(r);
      }
    }
    r
  }

  /** A lesson just added is listed for its course. */
  lemma AddedLessonListed(docs: seq<Lesson>, lesson: Lesson)
    ensures lesson in multiset(SortByOrder(LessonsOf(docs + [lesson], lesson.courseId)))
  {
    assert lesson in LessonsOf(docs + [lesson], lesson.courseId);
  }
}
