/**
 * Catalog handlers of server/controllers/courseController.js: course creation, the
 * published-only listing, the course-page access decision and the publish toggle.
 */
module CourseController {
  import opened Common
  import opened Models

  /** The schema's required strings of a new course document (server/models/Course.js). */
  predicate CourseDocValid(title: string, description: string, category: Option<string>) {
    title != "" && description != "" && category.Some? && category.value != ""
  }

  datatype CreateCourseReply = CreateServerError | MentorNotVerified | CourseInvalid | CourseCreated

  /**
   * The guards of `createCourse`: `req.mentor` missing throws (a 500), an unverified mentor gets a 403,
   * and `CourseModel.create` throws a validation error (a 500) for a document the schema refuses.
   */
  function CreateCourseOutcome(mentorFound: bool, verified: bool, title: string, description: string,
                               category: Option<string>): (r: CreateCourseReply)
    ensures r == CourseCreated <==> mentorFound && verified && CourseDocValid(title, description, category)
    ensures r == MentorNotVerified <==> mentorFound && !verified
  {
    if !mentorFound then CreateServerError
    else if !verified then MentorNotVerified
    else if !CourseDocValid(title, description, category) then CourseInvalid
    else CourseCreated
  }

  /**
   * The handler as written builds the document from `title` and `description` only, so the
   * required `category` is always absent and no course is ever created.
   */
  function CreateCourseAsWritten(mentorFound: bool, verified: bool, title: string, description: string)
    : CreateCourseReply
  {
    CreateCourseOutcome(mentorFound, verified, title, description, None)
  }

  lemma CreateCourseAsWrittenNeverCreates(mentorFound: bool, verified: bool, title: string, description: string)
    ensures CreateCourseAsWritten(mentorFound, verified, title, description) != CourseCreated
    ensures mentorFound && verified ==> CreateCourseAsWritten(mentorFound, verified, title, description) == CourseInvalid
  {
  }

  /** The mentor fields that course creation leaves alone. */
  function MentorRest(m: Mentor): (OtpState, string, string, string, seq<Id>)
    reads m
  {
    (m.Otp(), m.name, m.email, m.expertise, m.students)
  }

  /**
   * `createCourse` with the request's `category` passed on to the document. A created course belongs
   * to the mentor, is free, unpublished and empty, and its id is pushed onto `mentor.courses`.
   */
  method CreateCourse(mentor: Mentor?, title: string, description: string, category: Option<string>, newId: Id)
    returns (r: CreateCourseReply, course: Course?)
    modifies mentor
    ensures r == CreateCourseOutcome(mentor != null, mentor != null && old(mentor.isAccountVerified),
                                     title, description, category)
    ensures mentor != null ==> MentorRest(mentor) == old(MentorRest(mentor))
    ensures r != CourseCreated ==> course == null
    ensures r != CourseCreated && mentor != null ==> mentor.courses == old(mentor.courses)
    ensures r == CourseCreated ==>
              && mentor != null && course != null && fresh(course)
              && course.id == newId && course.title == title && course.description == description
              && course.category == category.value
              && course.instructor == mentor.id && course.price == 0
              && !course.isPublished && course.lessons == [] && course.enrolledStudents == []
              && mentor.courses == old(mentor.courses) + [newId]
  {
    if mentor == null {
      return CreateServerError, null;
    }
    if !mentor.isAccountVerified {
      return MentorNotVerified, null;
    }
    if !CourseDocValid(title, description, category) {
      return CourseInvalid, null;
    }
    course := new Course(newId, title, description, category.value, mentor.id, 0);
    mentor.courses := mentor.courses + [newId];
    r := CourseCreated;
  }

  /** `CourseModel.find({ isPublished: true })`, in collection order. */
  function PublishedCourses(courses: seq<Course>): (r: seq<Course>)
    reads courses
    ensures |r| <= |courses|
    ensures forall i :: 0 <= i < |r| ==> r[i] in courses && r[i].isPublished
    ensures forall i :: 0 <= i < |courses| && courses[i].isPublished ==> courses[i] in r
  {
    if courses == [] then []
    else (if courses[0].isPublished then [courses[0]] else []) + PublishedCourses(courses[1..])
  }

  datatype AccessReply = DetailsNotFound | AccessGranted | AccessDenied

  /**
   * The decision of `getCourseDetails` on the fields it reads: `instructor` is the populated
   * instructor's id (None when the mentor document is gone), `mentorId`/`studentId` the ids of
   * `req.mentor`/`req.student` when set.
   */
  function AccessDecision(found: bool, instructor: Option<Id>, enrolled: seq<Id>,
                          mentorId: Option<Id>, studentId: Option<Id>): AccessReply
  {
    if !found then DetailsNotFound
    else if mentorId.Some? && instructor.Some? && instructor.value == mentorId.value then AccessGranted
    else if studentId.Some? && studentId.value in enrolled then AccessGranted
    else AccessDenied
  }

  /** Access is granted exactly to the owning mentor and to enrolled students. */
  lemma AccessDecisionIff(found: bool, instructor: Option<Id>, enrolled: seq<Id>,
                          mentorId: Option<Id>, studentId: Option<Id>)
    ensures AccessDecision(found, instructor, enrolled, mentorId, studentId) == AccessGranted <==>
      found && ((mentorId.Some? && instructor == mentorId) || (studentId.Some? && studentId.value in enrolled))
    ensures AccessDecision(found, instructor, enrolled, mentorId, studentId) == DetailsNotFound <==> !found
  {
  }

  /**
   * `getCourseDetails` on the course document: `instructorFound` says whether populating
   * `instructor` found the mentor. Only the owning mentor and enrolled students get the page.
   */
  function CourseAccess(course: Course?, instructorFound: bool, mentorId: Option<Id>, studentId: Option<Id>)
    : (r: AccessReply)
    reads course
    ensures r == DetailsNotFound <==> course == null
    ensures r == AccessGranted <==>
      course != null &&
      ((mentorId.Some? && instructorFound && course.instructor == mentorId.value) ||
       (studentId.Some? && studentId.value in course.enrolledStudents))
  {
    if course == null then DetailsNotFound
    else AccessDecision(true, if instructorFound then Some(course.instructor) else None,
                        course.enrolledStudents, mentorId, studentId)
  }

  /** A student whose enrollment went through may open the course page. */
  lemma EnrolledStudentGranted(instructor: Option<Id>, enrolled: seq<Id>, mentorId: Option<Id>, studentId: Id)
    ensures AccessDecision(true, instructor, AppendIfAbsent(enrolled, studentId), mentorId, Some(studentId))
      == AccessGranted
  {
  }

  /** With neither `req.mentor` nor `req.student` set, an existing course is always refused. */
  lemma AnonymousViewerDenied(instructor: Option<Id>, enrolled: seq<Id>)
    ensures AccessDecision(true, instructor, enrolled, None, None) == AccessDenied
  {
  }

  datatype ToggleReply = ToggleNotFound | Toggled(message: string)

  function PublishMessage(published: bool): string {
    if published then "Course published successfully" else "Course unpublished successfully"
  }

  /** The message names the state the course was put into, and tells the two states apart. */
  lemma PublishMessageDistinct()
    ensures PublishMessage(true) != PublishMessage(false)
  {
    assert PublishMessage(true)[7] != PublishMessage(false)[7];
  }

  /** `toggleCoursePublish`: negate `isPublished` and report the new state; a missing course changes nothing. */
  method ToggleCoursePublish(course: Course?) returns (r: ToggleReply)
    modifies course
    ensures course == null <==> r == ToggleNotFound
    ensures course != null ==>
              && course.isPublished == !old(course.isPublished)
              && r == Toggled(PublishMessage(course.isPublished))
              && course.title == old(course.title) && course.description == old(course.description)
              && course.category == old(course.category) && course.instructor == old(course.instructor)
              && course.price == old(course.price) && course.lessons == old(course.lessons)
              && course.enrolledStudents == old(course.enrolledStudents)
  {
    if course == null {
      return ToggleNotFound;
    }
    course.isPublished := !course.isPublished;
    r := Toggled(PublishMessage(course.isPublished));
  }

  /** Toggling twice restores the original publication state. */
  method ToggleTwice(course: Course)
    modifies course
    ensures course.isPublished == old(course.isPublished)
  {
    var _ := ToggleCoursePublish(course);
    var _ := ToggleCoursePublish(course);
  }
}
