/**
 * The rules of the student course page (client/src/pages/StCourseView.jsx): marking lessons
 * completed, sequential unlocking, moving on to the quiz, and assembling and submitting the answers.
 */
module CourseView {
  import opened Common
  import opened Models
  import QuizRoutes

  /** `quiz.questions.map((_, i) => quizAnswers[i] || "")`: one answer per question, "" where none was picked. */
  function AssembleAnswers(n: nat, picked: map<nat, string>): (r: seq<string>)
    ensures |r| == n
  {
    if n == 0 then [] else AssembleAnswers(n - 1, picked) + [if n - 1 in picked then picked[n - 1] else ""]
  }

  /** Entry `i` of the assembled list is the picked answer, or "" for an unanswered question. */
  lemma {:induction false} AssembleAnswersAt(n: nat, picked: map<nat, string>, i: nat)
    requires i < n
    ensures AssembleAnswers(n, picked)[i] == (if i in picked then picked[i] else "")
  {
    if i < n - 1 {
      AssembleAnswersAt(n - 1, picked, i);
    }
  }

  /** A question scores only when an answer was picked for it and that answer is the correct one. */
  lemma ScoringNeedsPickedAnswer(picked: map<nat, string>, questions: seq<Question>, i: nat)
    requires i < |questions|
    ensures QuizRoutes.Hit(AssembleAnswers(|questions|, picked), questions, i) ==>
      i in picked && picked[i] != "" && picked[i] == questions[i].correctAnswer
  {
    AssembleAnswersAt(|questions|, picked, i);
  }

  /** A quiz submitted without picking anything scores 0 on the server. */
  lemma NothingPickedScoresZero(questions: seq<Question>)
    ensures QuizRoutes.Score(AssembleAnswers(|questions|, map[]), questions) == 0
  {
    var answers := AssembleAnswers(|questions|, map[]);
    forall i | 0 <= i < |answers|
      ensures answers[i] == ""
    {
      AssembleAnswersAt(|questions|, map[], i);
    }
    QuizRoutes.BlankAnswersScoreZero(answers, questions, |questions|);
  }

  const MarkedMessage: string := "\U{2705} Lesson marked as completed!"
  const MarkFailedMessage: string := "\U{274C} Could not mark as completed."
  const PassedMessage: string := "\U{1F389} Quiz passed! Course marked complete."
  const NotPassedMessage: string := "\U{26A0}\U{FE0F} Quiz not passed, try again."
  const SubmitErrorMessage: string := "\U{274C} Quiz submission error"

  /** The page after its data is loaded: the course's lesson ids in order and its quiz, if any. */
  class CoursePage {
    const lessons: seq<Id>
    const quiz: Option<QuizRoutes.QuizDoc>
    var completedLessons: seq<Id>
    var currentLesson: int
    var quizAnswers: map<nat, string>
    var quizSubmitted: bool
    var quizResult: Option<QuizRoutes.SubmitReply>
    var info: string

    /** `completed` is the `completedLessonIds` the page fetched, [] when the reply has none. */
    constructor (lessons: seq<Id>, quiz: Option<QuizRoutes.QuizDoc>, completed: seq<Id>)
      ensures this.lessons == lessons && this.quiz == quiz && completedLessons == completed
      ensures currentLesson == 0 && quizAnswers == map[] && !quizSubmitted && quizResult == None && info == ""
      ensures Valid()
    {
      this.lessons, this.quiz, completedLessons := lessons, quiz, completed;
      currentLesson, quizAnswers, quizSubmitted, quizResult, info := 0, map[], false, None, "";
    }

    /** The position stays within the lessons, or just past them only when there is a quiz to show. */
    predicate Valid()
      reads this
    {
      0 <= currentLesson <= |lessons| && (currentLesson == |lessons| && |lessons| > 0 ==> quiz.Some?)
    }

    /** A lesson is shown while `currentLesson < course.lessons.length`. */
    predicate LessonShown()
      reads this
    {
      0 <= currentLesson < |lessons|
    }

    /** The quiz is shown past the last lesson, and only when the course has a quiz. */
    predicate QuizShown()
      reads this
    {
      currentLesson >= |lessons| && quiz.Some?
    }

    /** The sidebar entry `idx` reacts to a click iff it is the first or its predecessor is completed. */
    predicate CanSelect(idx: int)
      requires 0 <= idx < |lessons|
      reads this
    {
      idx == 0 || lessons[idx - 1] in completedLessons
    }

    /** `canGoNext`: the shown lesson or the one before it is completed. */
    predicate CanGoNext()
      requires LessonShown()
      reads this
    {
      lessons[currentLesson] in completedLessons
        || (currentLesson > 0 && lessons[currentLesson - 1] in completedLessons)
    }

    /** The Submit button is rendered until a submission got an answer. */
    predicate SubmitVisible()
      reads this
    {
      QuizShown() && !quizSubmitted
    }

    /**
     * `markLessonCompleted`: only a reply with `success` records the lesson, once; a rejected
     * request shows the failure toast; a reply without `success` changes nothing.
     */
    method MarkLessonCompleted(lessonId: Id, response: HttpResponse)
      modifies this
      ensures currentLesson == old(currentLesson) && quizAnswers == old(quizAnswers)
      ensures quizSubmitted == old(quizSubmitted) && quizResult == old(quizResult)
      ensures response.Answered? && response.success ==>
                completedLessons == AppendIfAbsent(old(completedLessons), lessonId) && info == MarkedMessage
      ensures response.Answered? && !response.success ==>
                completedLessons == old(completedLessons) && info == old(info)
      ensures response.Threw? ==> completedLessons == old(completedLessons) && info == MarkFailedMessage
    {
      match response
      case Answered(success, _) =>
        if success {
          completedLessons := AppendIfAbsent(completedLessons, lessonId);
          info := MarkedMessage;
        }
      case Threw(_) =>
        info := MarkFailedMessage;
    }

    /** A click on sidebar entry `idx`. */
    method SelectLesson(idx: int)
      requires 0 <= idx < |lessons|
      requires Valid()
      modifies this
      ensures currentLesson == (if old(CanSelect(idx)) then idx else old(currentLesson))
      ensures completedLessons == old(completedLessons) && quizAnswers == old(quizAnswers)
      ensures quizSubmitted == old(quizSubmitted) && quizResult == old(quizResult) && info == old(info)
      ensures Valid() && LessonShown() == (old(LessonShown()) || old(CanSelect(idx)))
    {
      if CanSelect(idx) {
        currentLesson := idx;
      }
    }

    /**
     * `handleNextLesson`: mark the shown lesson, then advance one lesson, or past the last lesson
     * when there is a quiz; on the last lesson of a course without a quiz the page stays put. The
     * move does not wait for the marking to succeed.
     */
    method HandleNextLesson(response: HttpResponse)
      requires Valid() && LessonShown()
      modifies this
      ensures Valid()
      ensures old(currentLesson) < |lessons| - 1 ==> currentLesson == old(currentLesson) + 1
      ensures old(currentLesson) == |lessons| - 1 && quiz.Some? ==> currentLesson == |lessons| && QuizShown()
      ensures old(currentLesson) == |lessons| - 1 && quiz.None? ==> currentLesson == old(currentLesson)
      ensures response.Answered? && response.success ==>
                completedLessons == AppendIfAbsent(old(completedLessons), lessons[old(currentLesson)])
      ensures !(response.Answered? && response.success) ==> completedLessons == old(completedLessons)
      ensures quizAnswers == old(quizAnswers) && quizSubmitted == old(quizSubmitted) && quizResult == old(quizResult)
      ensures response.Answered? && response.success && LessonShown() ==> CanGoNext()
      ensures response.Answered? && response.success && old(currentLesson) < |lessons| - 1 ==> CanSelect(currentLesson)
    {
      var current := lessons[currentLesson];
      MarkLessonCompleted(current, response);
      if currentLesson < |lessons| - 1 {
        currentLesson := currentLesson + 1;
      } else if quiz.Some? {
        currentLesson := |lessons|;
      }
    }

    /** `selectAnswer(qIdx, answer)`: entry `qIdx` is set and every other entry is kept. */
    method SelectAnswer(qIdx: nat, answer: string)
      modifies this
      ensures quizAnswers == old(quizAnswers)[qIdx := answer]
      ensures forall k :: k in old(quizAnswers) && k != qIdx ==> k in quizAnswers && quizAnswers[k] == old(quizAnswers)[k]
      ensures completedLessons == old(completedLessons) && currentLesson == old(currentLesson)
      ensures quizSubmitted == old(quizSubmitted) && quizResult == old(quizResult) && info == old(info)
    {
      quizAnswers := quizAnswers[qIdx := answer];
    }

    /**
     * `submitQuiz`: without a quiz nothing is sent. Otherwise the assembled answers are posted; a
     * scored reply is kept and ends the submission, any other reply is rejected by axios and only
     * the error toast is shown.
     */
    method SubmitQuiz(reply: QuizRoutes.SubmitReply) returns (sent: Option<seq<string>>)
      modifies this
      ensures quiz.None? ==> sent.None? && quizSubmitted == old(quizSubmitted) && quizResult == old(quizResult)
                             && info == old(info)
      ensures quiz.Some? ==> sent == Some(AssembleAnswers(|quiz.value.questions|, old(quizAnswers)))
      ensures quiz.Some? && reply.Submitted? ==>
                && quizSubmitted && quizResult == Some(reply)
                && info == (if reply.passed then PassedMessage else NotPassedMessage)
      ensures quiz.Some? && !reply.Submitted? ==>
                quizSubmitted == old(quizSubmitted) && quizResult == old(quizResult) && info == SubmitErrorMessage
      ensures completedLessons == old(completedLessons) && currentLesson == old(currentLesson)
      ensures quizAnswers == old(quizAnswers)
    {
      if quiz.None? {
        return None;
      }
      var answers := AssembleAnswers(|quiz.value.questions|, quizAnswers);
      sent := Some(answers);
      match reply
      case Submitted(_, _, passed) =>
        quizResult := Some(reply);
        info := if passed then PassedMessage else NotPassedMessage;
        quizSubmitted := true;
      case _ =>
        info := SubmitErrorMessage;
    }
  }
}
