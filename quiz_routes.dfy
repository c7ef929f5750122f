/**
 * The quiz router (server/routes/quizRoutes.js): one quiz document per course, created or
 * overwritten by `/create`, looked up by `/:courseId`, and scored positionally by `/submit`.
 */
module QuizRoutes {
  import opened Common
  import opened Models

  /** A quiz document (server/models/Quiz.js); timestamps left out. */
  datatype QuizDoc = QuizDoc(courseId: Id, questions: seq<Question>, totalMarks: int, passingMarks: int)

  /** The schema's `required` string fields of one question are all non-empty. */
  predicate QuestionValid(q: Question) {
    q.questionText != "" && q.correctAnswer != "" && forall k :: 0 <= k < |q.options| ==> q.options[k] != ""
  }

  predicate QuestionsValid(qs: seq<Question>) {
    forall i :: 0 <= i < |qs| ==> QuestionValid(qs[i])
  }

  /** No two quiz documents belong to the same course. */
  predicate OnePerCourse(docs: seq<QuizDoc>) {
    forall i, j :: 0 <= i < j < |docs| ==> docs[i].courseId != docs[j].courseId
  }

  /** `QuizModel.findOne({ courseId })`: the position of the first quiz of the course. */
  function FindQuiz(docs: seq<QuizDoc>, courseId: Id): (r: Option<nat>)
    ensures r.Some? ==> r.value < |docs| && docs[r.value].courseId == courseId
    ensures r.Some? ==> forall j :: 0 <= j < r.value ==> docs[j].courseId != courseId
    ensures r.None? <==> forall j :: 0 <= j < |docs| ==> docs[j].courseId != courseId
  {
    if docs == [] then None
    else if docs[0].courseId == courseId then Some(0)
    else match FindQuiz(docs[1..], courseId)
      case None => None
      case Some(k) => Some(k + 1)
  }

  function LookupQuiz(docs: seq<QuizDoc>, courseId: Id): Option<QuizDoc> {
    match FindQuiz(docs, courseId)
    case None => None
    case Some(k) => Some(docs[k])
  }

  /** Overwrite the course's quiz in place, or create one at the end. */
  function Upsert(docs: seq<QuizDoc>, q: QuizDoc): seq<QuizDoc> {
    match FindQuiz(docs, q.courseId)
    case Some(k) => docs[k := q]
    case None => docs + [q]
  }

  /** After the upsert the course's quiz is the new one. */
  lemma UpsertStores(docs: seq<QuizDoc>, q: QuizDoc)
    ensures LookupQuiz(Upsert(docs, q), q.courseId) == Some(q)
  {
    var r := Upsert(docs, q);
    match FindQuiz(docs, q.courseId)
    case Some(k) =>
      assert FindQuiz(r, q.courseId) == Some(k) by {
        FindQuizUnique(r, q.courseId, k);
      }
    case None =>
      FindQuizUnique(r, q.courseId, |docs|);
  }

  /** The first position of a course is determined by the positions before it. */
  lemma {:induction false} FindQuizUnique(docs: seq<QuizDoc>, courseId: Id, k: nat)
    requires k < |docs| && docs[k].courseId == courseId
    requires forall j :: 0 <= j < k ==> docs[j].courseId != courseId
    ensures FindQuiz(docs, courseId) == Some(k)
  {
    if k > 0 {
      FindQuizUnique(docs[1..], courseId, k - 1);
    }
  }

  /** The quizzes of other courses are untouched by the upsert. */
  lemma UpsertOthers(docs: seq<QuizDoc>, q: QuizDoc, c: Id)
    requires c != q.courseId
    ensures LookupQuiz(Upsert(docs, q), c) == LookupQuiz(docs, c)
  {
    var r := Upsert(docs, q);
    match FindQuiz(docs, c)
    case Some(k) =>
      assert r[k] == docs[k];
      FindQuizUnique(r, c, k);
    case None =>
      assert forall j :: 0 <= j < |r| ==> r[j].courseId != c;
  }

  /** Only this path writes quizzes, so there is never more than one per course. */
  lemma UpsertOnePerCourse(docs: seq<QuizDoc>, q: QuizDoc)
    requires OnePerCourse(docs)
    ensures OnePerCourse(Upsert(docs, q))
  {
  }

  /** The quiz collection, updated in place. */
  class QuizCollection {
    var docs: seq<QuizDoc>

    constructor ()
      ensures docs == []
    {
      docs := [];
    }
  }

  datatype CreateReply = IncompleteQuizData | QuizSaveFailed | QuizSaved(quiz: QuizDoc)

  /** The document `/create` writes: one mark per question; an absent `passingMarks` reads back as 0. */
  function NewQuiz(courseId: Id, questions: seq<Question>, passingMarks: Option<int>): (q: QuizDoc)
    ensures q.courseId == courseId && q.questions == questions
  {
    QuizDoc(courseId, questions, |questions|, passingMarks.GetOr(0))
  }

  /**
   * `/create`: a missing course id or an empty question list is a 400 with no write; a question
   * that fails the schema's required-string checks makes the save throw, a 500 with no write.
   */
  method CreateQuiz(store: QuizCollection, courseId: Id, questions: seq<Question>, passingMarks: Option<int>)
    returns (r: CreateReply)
    modifies store
    ensures r == IncompleteQuizData <==> courseId == "" || |questions| == 0
    ensures r == QuizSaveFailed <==> courseId != "" && |questions| > 0 && !QuestionsValid(questions)
    ensures !r.QuizSaved? ==> store.docs == old(store.docs)
    ensures r.QuizSaved? ==>
              && r.quiz == NewQuiz(courseId, questions, passingMarks)
              && r.quiz.totalMarks == |questions|
              && store.docs == Upsert(old(store.docs), r.quiz)
  {
    if courseId == "" || |questions| == 0 {
      return IncompleteQuizData;
    }
    if !QuestionsValid(questions) {
      return QuizSaveFailed;
    }
    var quiz := NewQuiz(courseId, questions, passingMarks);
    var found := FindQuiz(store.docs, courseId);
    match found {
      case Some(k) =>
        store.docs := store.docs[k := quiz];
      case None =>
        store.docs := store.docs + [quiz];
    }
    r := QuizSaved(quiz);
  }

  datatype GetReply = QuizNotFound | QuizFound(quiz: QuizDoc)

  /** `/:courseId`: the course's quiz, or a 404 when it has none. */
  function GetQuiz(store: QuizCollection, courseId: Id): (r: GetReply)
    reads store
    ensures r == QuizNotFound <==> forall j :: 0 <= j < |store.docs| ==> store.docs[j].courseId != courseId
    ensures r.QuizFound? ==> r.quiz in store.docs && r.quiz.courseId == courseId
  {
    match LookupQuiz(store.docs, courseId)
    case None => QuizNotFound
    case Some(q) => QuizFound(q)
  }

  /** `answers[i] && answers[i] === q.correctAnswer`; an index past the array reads `undefined`. */
  predicate Hit(answers: seq<string>, questions: seq<Question>, i: nat)
    requires i < |questions|
  {
    i < |answers| && answers[i] != "" && answers[i] == questions[i].correctAnswer
  }

  /** The number of hits among the first `n` questions. */
  function ScoreUpTo(answers: seq<string>, questions: seq<Question>, n: nat): nat
    requires n <= |questions|
  {
    if n == 0 then 0 else ScoreUpTo(answers, questions, n - 1) + (if Hit(answers, questions, n - 1) then 1 else 0)
  }

  function Score(answers: seq<string>, questions: seq<Question>): nat {
    ScoreUpTo(answers, questions, |questions|)
  }

  /** The score is at most the number of questions considered, and reaches it only when every one hits. */
  lemma {:induction false} ScoreUpToBounds(answers: seq<string>, questions: seq<Question>, n: nat)
    requires n <= |questions|
    ensures ScoreUpTo(answers, questions, n) <= n
    ensures ScoreUpTo(answers, questions, n) == n <==> forall i :: 0 <= i < n ==> Hit(answers, questions, i)
  {
    if n > 0 {
      ScoreUpToBounds(answers, questions, n - 1);
    }
  }

  lemma ScoreBounds(answers: seq<string>, questions: seq<Question>)
    ensures 0 <= Score(answers, questions) <= |questions|
    ensures Score(answers, questions) == |questions| <==>
      forall i :: 0 <= i < |questions| ==> Hit(answers, questions, i)
  {
    ScoreUpToBounds(answers, questions, |questions|);
  }

  /** Missing or blank answers never score. */
  lemma {:induction false} BlankAnswersScoreZero(answers: seq<string>, questions: seq<Question>, n: nat)
    requires n <= |questions|
    requires forall i :: 0 <= i < |answers| ==> answers[i] == ""
    ensures ScoreUpTo(answers, questions, n) == 0
  {
    if n > 0 {
      BlankAnswersScoreZero(answers, questions, n - 1);
    }
  }

  /** Only the answers at question positions matter: extra entries beyond the questions are ignored. */
  lemma {:induction false} ScoreIgnoresExtraAnswers(answers: seq<string>, extra: seq<string>,
                                                    questions: seq<Question>, n: nat)
    requires n <= |questions| <= |answers|
    ensures ScoreUpTo(answers + extra, questions, n) == ScoreUpTo(answers, questions, n)
  {
    if n > 0 {
      ScoreIgnoresExtraAnswers(answers, extra, questions, n - 1);
      assert (answers + extra)[n - 1] == answers[n - 1];
    }
  }

  /** `quiz.totalMarks || quiz.questions.length`. */
  function ReportedTotal(q: QuizDoc): int {
    if q.totalMarks != 0 then q.totalMarks else |q.questions|
  }

  /** For a quiz written by `/create` the reported total is the number of questions. */
  lemma CreatedQuizTotal(courseId: Id, questions: seq<Question>, passingMarks: Option<int>)
    ensures ReportedTotal(NewQuiz(courseId, questions, passingMarks)) == |questions|
  {
  }

  datatype SubmitReply = SubmitQuizNotFound | SubmitFailed | Submitted(score: nat, total: int, passed: bool)

  /**
   * `/submit`. `answers` is `req.body.answers` (None when absent: indexing it throws as soon as there
   * is a question), `studentFound` whether `req.stId` names a student (otherwise the handler throws),
   * and `prior` the document's `quizResults` property. `results` is that property after the
   * assignment; it is not a path of the student schema, so `save()` stores nothing and the student
   * document is not modified.
   */
  method SubmitQuiz(store: QuizCollection, courseId: Id, answers: Option<seq<string>>, studentFound: bool,
                    prior: Option<map<Id, QuizResult>>)
    returns (r: SubmitReply, results: map<Id, QuizResult>)
    ensures LookupQuiz(store.docs, courseId).None? <==> r == SubmitQuizNotFound
    ensures LookupQuiz(store.docs, courseId).Some? ==>
      var q := LookupQuiz(store.docs, courseId).value;
      && (r == SubmitFailed <==> (answers.None? && |q.questions| > 0) || !studentFound)
      && (r.Submitted? ==>
            && r.score == Score(answers.GetOr([]), q.questions)
            && r.passed == (r.score >= q.passingMarks)
            && r.total == ReportedTotal(q))
    ensures r.Submitted? ==> results == prior.GetOr(map[])[courseId := QuizResult(r.score, r.passed)]
    ensures !r.Submitted? ==> results == prior.GetOr(map[])
  {
    results := prior.GetOr(map[]);
    var found := LookupQuiz(store.docs, courseId);
    if found.None? {
      return SubmitQuizNotFound, results;
    }
    var quiz := found.value;
    var total := if quiz.totalMarks != 0 then quiz.totalMarks else |quiz.questions|;
    if answers.None? && |quiz.questions| > 0 {
      return SubmitFailed, results;
    }
    var given := answers.GetOr([]);
    var score := 0;
    var i := 0;
    while i < |quiz.questions|
      invariant 0 <= i <= |quiz.questions|
      invariant score == ScoreUpTo(given, quiz.questions, i)
    {
      if i < |given| && given[i] != "" && given[i] == quiz.questions[i].correctAnswer {
        score := score + 1;
      }
      i := i + 1;
    }
    var passed := score >= quiz.passingMarks;
    if !studentFound {
      return SubmitFailed, results;
    }
    results := results[courseId := QuizResult(score, passed)];
    r := Submitted(score, total, passed);
  }
}
