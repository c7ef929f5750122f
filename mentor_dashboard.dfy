/**
 * The rules of the mentor dashboard page (client/src/pages/test.jsx): the student total, the
 * course, lesson and quiz forms with their client-side checks, and what each form sends.
 */
module MentorDashboard {
  import opened Common
  import opened Models
  import QuizRoutes
  import LessonController
  import CourseController

  /** A course as the page lists it: its `_id` and `enrolledStudents`, when present. */
  datatype MentorCourse = MentorCourse(id: Id, enrolledStudents: Option<seq<Id>>)

  /** `c.enrolledStudents?.length || 0`. */
  function EnrolledCount(c: MentorCourse): nat {
    match c.enrolledStudents
    case None => 0
    case Some(s) => |s|
  }

  /** `courses.reduce((acc, c) => acc + (c.enrolledStudents?.length || 0), acc)`, left to right. */
  function Reduce(acc: nat, courses: seq<MentorCourse>): nat
    decreases |courses|
  {
    if courses == [] then acc else Reduce(acc + EnrolledCount(courses[0]), courses[1..])
  }

  /** The number of enrollments over all listed courses. */
  function SumEnrolled(courses: seq<MentorCourse>): nat {
    if courses == [] then 0 else EnrolledCount(courses[0]) + SumEnrolled(courses[1..])
  }

  /** The left fold adds the enrollment sum to its start value. */
  lemma {:induction false} ReduceIsSum(acc: nat, courses: seq<MentorCourse>)
    ensures Reduce(acc, courses) == acc + SumEnrolled(courses)
    decreases |courses|
  {
    if courses != [] {
      ReduceIsSum(acc + EnrolledCount(courses[0]), courses[1..]);
    }
  }

  /** `mentor?.students?.length || courses.reduce(...)`. */
  function TotalStudents(mentorStudents: Option<seq<Id>>, courses: seq<MentorCourse>): nat {
    var n := match mentorStudents case None => 0 case Some(s) => |s|;
    if n != 0 then n else Reduce(0, courses)
  }

  /** The mentor's own list when it is non-empty, otherwise the enrollments summed over the courses. */
  lemma TotalStudentsIs(mentorStudents: Option<seq<Id>>, courses: seq<MentorCourse>)
    ensures mentorStudents.Some? && |mentorStudents.value| > 0 ==>
      TotalStudents(mentorStudents, courses) == |mentorStudents.value|
    ensures (mentorStudents.None? || mentorStudents.value == []) ==>
      TotalStudents(mentorStudents, courses) == SumEnrolled(courses)
  {
    ReduceIsSum(0, courses);
  }

  /** A course without enrollments, put in front of the list, leaves the total as it was. */
  lemma NewCourseKeepsTotal(mentorStudents: Option<seq<Id>>, c: MentorCourse, courses: seq<MentorCourse>)
    requires EnrolledCount(c) == 0
    ensures TotalStudents(mentorStudents, [c] + courses) == TotalStudents(mentorStudents, courses)
  {
    TotalStudentsIs(mentorStudents, [c] + courses);
    TotalStudentsIs(mentorStudents, courses);
    assert ([c] + courses)[1..] == courses;
  }

  /** The draft question passes `addQuestionToList`: text, every option and the answer are filled in. */
  predicate QuestionComplete(q: Question) {
    q.questionText != "" && !(exists k :: 0 <= k < |q.options| && q.options[k] == "") && q.correctAnswer != ""
  }

  /** The page accepts exactly the questions whose required strings the quiz schema accepts. */
  lemma QuestionCompleteIffValid(q: Question)
    ensures QuestionComplete(q) <==> QuizRoutes.QuestionValid(q)
  {
  }

  const EmptyQuestion: Question := Question("", ["", "", "", ""], "")

  datatype CourseForm = CourseForm(title: string, description: string)

  /** The lesson form; its content type travels under the key `type`. */
  datatype LessonForm = LessonForm(courseId: Id, title: string, lessonType: string, contentUrl: string)

  datatype QuizForm = QuizForm(courseId: Id, passingMarks: string, questions: seq<Question>)

  const EmptyCourseForm: CourseForm := CourseForm("", "")
  const EmptyLessonForm: LessonForm := LessonForm("", "", "video", "")
  const EmptyQuizForm: QuizForm := QuizForm("", "", [])

  /** A request body the page posted. */
  datatype Sent = SentCourse(course: CourseForm) | SentLesson(lesson: LessonForm) | SentQuiz(quiz: QuizForm)

  /**
   * A course request carries only the title and the description: whatever the mentor, the
   * handler sees no `category` and does not create the course.
   */
  lemma SentCourseNeverCreated(f: CourseForm, mentorFound: bool, verified: bool)
    ensures CourseController.CreateCourseOutcome(mentorFound, verified, f.title, f.description, None)
      != CourseController.CourseCreated
  {
  }

  /**
   * A lesson request carries `type` where `addLesson` reads `contentType`, so every lesson the
   * page sends is refused for a missing field.
   */
  lemma SentLessonRefused(f: LessonForm, courseFound: bool, newId: Id)
    ensures LessonController.AddLessonOutcome(f.courseId, f.title, "", f.contentUrl, courseFound, newId)
      == LessonController.LessonFieldsRequired
  {
  }

  /**
   * Questions collected by the page never make the quiz save fail: a quiz the page posts, which has a
   * course id and a question, is stored by `/create`.
   */
  lemma {:induction false} CompleteQuestionsValid(qs: seq<Question>)
    requires forall i :: 0 <= i < |qs| ==> QuestionComplete(qs[i])
    ensures QuizRoutes.QuestionsValid(qs)
  {
    forall i | 0 <= i < |qs|
      ensures QuizRoutes.QuestionValid(qs[i])
    {
      QuestionCompleteIffValid(qs[i]);
    }
  }

  /** The page state that the forms change. */
  class MentorPage {
    /** `mentor?.isAccountVerified`. */
    var verified: bool
    var courses: seq<MentorCourse>
    var courseForm: CourseForm
    var lessonForm: LessonForm
    var quizForm: QuizForm
    var currentQuestion: Question
    var showVerifyModal: bool
    var infoMessage: string
    /** The request bodies posted so far. */
    var sent: seq<Sent>

    constructor (verified: bool, courses: seq<MentorCourse>)
      ensures this.verified == verified && this.courses == courses
      ensures courseForm == EmptyCourseForm && lessonForm == EmptyLessonForm && quizForm == EmptyQuizForm
      ensures currentQuestion == EmptyQuestion && !showVerifyModal && infoMessage == "" && sent == []
      ensures Valid()
    {
      this.verified, this.courses := verified, courses;
      courseForm, lessonForm, quizForm, currentQuestion := EmptyCourseForm, EmptyLessonForm, EmptyQuizForm, EmptyQuestion;
      showVerifyModal, infoMessage, sent := false, "", [];
    }

    /** Every question collected for the quiz is complete. */
    predicate Valid()
      reads this
    {
      forall i :: 0 <= i < |quizForm.questions| ==> QuestionComplete(quizForm.questions[i])
    }

    /**
     * `createCourse`: an unverified mentor gets the modal, a form missing a field gets a toast; in
     * both cases nothing is sent. A reply carrying a course puts it in front of the list and clears
     * the form; a rejected request shows the failure toast.
     */
    method CreateCourse(response: HttpResponse, created: Option<MentorCourse>)
      modifies this
      ensures verified == old(verified) && lessonForm == old(lessonForm) && quizForm == old(quizForm)
      ensures currentQuestion == old(currentQuestion)
      ensures !old(verified) ==>
                && showVerifyModal && infoMessage == old(infoMessage) && sent == old(sent)
                && courses == old(courses) && courseForm == old(courseForm)
      ensures old(verified) ==> showVerifyModal == old(showVerifyModal)
      ensures old(verified) && (old(courseForm.title) == "" || old(courseForm.description) == "") ==>
                && infoMessage == "Fill all fields" && sent == old(sent)
                && courses == old(courses) && courseForm == old(courseForm)
      ensures old(verified) && old(courseForm.title) != "" && old(courseForm.description) != "" ==>
                && sent == old(sent) + [SentCourse(old(courseForm))]
                && (response.Answered? && created.Some? ==>
                      && courses == [created.value] + old(courses) && courseForm == EmptyCourseForm
                      && infoMessage == "Course created successfully!")
                && (response.Answered? && created.None? ==>
                      courses == old(courses) && courseForm == old(courseForm) && infoMessage == old(infoMessage))
                && (response.Threw? ==>
                      courses == old(courses) && courseForm == old(courseForm) && infoMessage == "Failed to create course")
    {
      if !verified {
        showVerifyModal := true;
        return;
      }
      if courseForm.title == "" || courseForm.description == "" {
        infoMessage := "Fill all fields";
        return;
      }
      sent := sent + [SentCourse(courseForm)];
      match response
      case Answered(_, _) =>
        if created.Some? {
          courses := [created.value] + courses;
          courseForm := EmptyCourseForm;
          infoMessage := "Course created successfully!";
        }
      case Threw(_) =>
        infoMessage := "Failed to create course";
    }

    /**
     * `addLesson`: the modal for an unverified mentor, a toast for a missing course id, title or
     * URL, and otherwise the form is posted; any reply that resolves clears the form.
     */
    method AddLesson(response: HttpResponse)
      modifies this
      ensures verified == old(verified) && courses == old(courses) && courseForm == old(courseForm)
      ensures quizForm == old(quizForm) && currentQuestion == old(currentQuestion)
      ensures !old(verified) ==>
                showVerifyModal && infoMessage == old(infoMessage) && sent == old(sent) && lessonForm == old(lessonForm)
      ensures old(verified) ==> showVerifyModal == old(showVerifyModal)
      ensures old(verified) && (old(lessonForm.courseId) == "" || old(lessonForm.title) == ""
                                || old(lessonForm.contentUrl) == "") ==>
                infoMessage == "Fill all lesson fields" && sent == old(sent) && lessonForm == old(lessonForm)
      ensures old(verified) && old(lessonForm.courseId) != "" && old(lessonForm.title) != ""
              && old(lessonForm.contentUrl) != "" ==>
                && sent == old(sent) + [SentLesson(old(lessonForm))]
                && (response.Answered? ==> lessonForm == EmptyLessonForm && infoMessage == "Lesson added successfully!")
                && (response.Threw? ==> lessonForm == old(lessonForm) && infoMessage == "Failed to add lesson")
    {
      if !verified {
        showVerifyModal := true;
        return;
      }
      if lessonForm.courseId == "" || lessonForm.title == "" || lessonForm.contentUrl == "" {
        infoMessage := "Fill all lesson fields";
        return;
      }
      sent := sent + [SentLesson(lessonForm)];
      match response
      case Answered(_, _) =>
        infoMessage := "Lesson added successfully!";
        lessonForm := EmptyLessonForm;
      case Threw(_) =>
        infoMessage := "Failed to add lesson";
    }

    /**
     * `addQuestionToList`: an incomplete draft only gets a toast; a complete one is appended to the
     * quiz and the draft is reset to empty text, four empty options and an empty answer.
     */
    method AddQuestionToList()
      modifies this
      ensures verified == old(verified) && courses == old(courses) && courseForm == old(courseForm)
      ensures lessonForm == old(lessonForm) && showVerifyModal == old(showVerifyModal) && sent == old(sent)
      ensures quizForm.courseId == old(quizForm.courseId) && quizForm.passingMarks == old(quizForm.passingMarks)
      ensures !QuestionComplete(old(currentQuestion)) ==>
                && infoMessage == "Please fill all question fields"
                && quizForm == old(quizForm) && currentQuestion == old(currentQuestion)
      ensures QuestionComplete(old(currentQuestion)) ==>
                && quizForm.questions == old(quizForm.questions) + [old(currentQuestion)]
                && currentQuestion == EmptyQuestion && infoMessage == "Question added"
      ensures old(Valid()) ==> Valid()
    {
      if !QuestionComplete(currentQuestion) {
        infoMessage := "Please fill all question fields";
        return;
      }
      quizForm := quizForm.(questions := quizForm.questions + [currentQuestion]);
      currentQuestion := EmptyQuestion;
      infoMessage := "Question added";
    }

    /** Typing into option input `i` of the draft replaces that option alone. */
    method EditOption(i: int, value: string)
      requires 0 <= i < |currentQuestion.options|
      modifies this
      ensures currentQuestion.options == old(currentQuestion.options)[i := value]
      ensures currentQuestion.questionText == old(currentQuestion.questionText)
      ensures currentQuestion.correctAnswer == old(currentQuestion.correctAnswer)
      ensures verified == old(verified) && courses == old(courses) && courseForm == old(courseForm)
      ensures lessonForm == old(lessonForm) && quizForm == old(quizForm)
      ensures showVerifyModal == old(showVerifyModal) && infoMessage == old(infoMessage) && sent == old(sent)
    {
      var opts := currentQuestion.options;
      opts := opts[i := value];
      currentQuestion := currentQuestion.(options := opts);
    }

    /**
     * `uploadQuiz`: the modal for an unverified mentor, a toast when the course or every question is
     * missing, and otherwise the quiz is posted; a reply with `success` clears the quiz form.
     */
    method UploadQuiz(response: HttpResponse)
      modifies this
      ensures verified == old(verified) && courses == old(courses) && courseForm == old(courseForm)
      ensures lessonForm == old(lessonForm) && currentQuestion == old(currentQuestion)
      ensures !old(verified) ==>
                showVerifyModal && infoMessage == old(infoMessage) && sent == old(sent) && quizForm == old(quizForm)
      ensures old(verified) ==> showVerifyModal == old(showVerifyModal)
      ensures old(verified) && (old(quizForm.courseId) == "" || old(quizForm.questions) == []) ==>
                infoMessage == "Add at least one question" && sent == old(sent) && quizForm == old(quizForm)
      ensures old(verified) && old(quizForm.courseId) != "" && old(quizForm.questions) != [] ==>
                && sent == old(sent) + [SentQuiz(old(quizForm))]
                && (response == Answered(true, response.message) ==>
                      quizForm == EmptyQuizForm && infoMessage == "Quiz uploaded successfully!")
                && (response == Answered(false, response.message) ==>
                      quizForm == old(quizForm) && infoMessage == "Failed to upload quiz")
                && (response.Threw? ==> quizForm == old(quizForm) && infoMessage == "Quiz upload error")
      ensures old(Valid()) ==> Valid()
    {
      if !verified {
        showVerifyModal := true;
        return;
      }
      if quizForm.courseId == "" || |quizForm.questions| == 0 {
        infoMessage := "Add at least one question";
        return;
      }
      sent := sent + [SentQuiz(quizForm)];
      match response
      case Answered(success, _) =>
        if success {
          infoMessage := "Quiz uploaded successfully!";
          quizForm := EmptyQuizForm;
        } else {
          infoMessage := "Failed to upload quiz";
        }
      case Threw(_) =>
        infoMessage := "Quiz upload error";
    }
  }
}
