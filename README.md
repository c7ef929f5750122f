# InsightQuest learning lifecycle, modelled in Dafny

This project models the student learning lifecycle of the InsightQuest e-learning app. The app is an Express/Mongoose server with a React client. The model covers:

- **Accounts.** Student and mentor registration and login guards. The one-time-password (OTP) state machines for account verification (an OTP valid for 24 hours) and password reset (valid for five minutes).
- **Authentication middleware.** Both middlewares pick a token by precedence: cookie, then `Authorization: Bearer` header (section 2.1 of RFC 6750), then body, then query. They then choose the id claim by fallback.
- **Enrollment.** `course.enrolledStudents` and `student.enrolledCourses` are written as set-like ledgers, gated on a verified account.
- **Lesson completion.** The routed `/complete-lesson` ledger and the `/get-completed-lessons` projection. Also the unrouted `completeLesson` draft with its progress formula.
- **Quizzes.** One quiz document per course, upserted by `/create`, looked up by `/:courseId`, and scored positionally by `/submit`.
- **Catalog rules.** Course creation, the published-only listing, the course-page access decision, the publish toggle, lesson creation and the lesson listing sorted by `order`.
- **Client pages.** The rules of the student dashboard (enrollment test, progress percentage, certificate, enroll gating). The course page (sequential unlocking, moving on to the quiz, answer assembly). The mentor dashboard (student total, form checks, question list).

**How the source is represented**

- Documents that the handlers assign field by field become classes: `Student`, `Mentor`, `Course`, and the client pages' state.
- Lookups that may fail become nullable parameters; `null` is "not found".
- Collections queried by a field are classes holding a `seq` of records.
- Replies are datatypes, one constructor per distinct answer.
- The empty string stands for a JavaScript value that is absent or falsy. `Common.Or` models `||` on such strings.
- Progress values are `JsNumber`: an exact rational or NaN.

## Model

| member | source | states |
|---|---|---|
| Common.Or | server/middleware/stAuth.js:6-9 | `a \|\| b` on strings is falsy exactly when both operands are, and is always one of them |
| Common.AppendIfAbsent | server/controllers/stcontroller.js:54-57 | the push-if-absent ledger holds the element afterwards, keeps its old entries as a prefix, grows by at most one, and is unchanged when the element was present |
| Common.AppendIfAbsentIdempotent | server/controllers/stcontroller.js:54-57 | a second push-if-absent of the same element changes nothing |
| Common.AppendIfAbsentCount | server/controllers/stcontroller.js:54-57 | after push-if-absent the element occurs as often as before if it was present, else exactly once |
| Common.AppendIfAbsentTwiceOnce | server/controllers/stcontroller.js:54-57 | pushing a fresh element twice leaves exactly one occurrence |
| Common.CountZeroIffAbsent | server/controllers/stcontroller.js:54-57 | an element occurs zero times exactly when it is absent |
| Models.FindLesson | server/controllers/stcontroller.js:79-80 | `findById` returns a lesson of the collection with that id, and returns nothing only when no lesson has the id |
| Models.LessonsOf | server/controllers/stcontroller.js:88-90 | `find({ courseId })` returns exactly the lessons of the collection that belong to the course |
| Models.NewAccount | server/models/stModel.js:10-14 | a new account is unverified and holds no verification or reset OTP |
| Models.Student.constructor | server/models/stModel.js:4-44 | a new student document has the schema defaults: unverified, no enrolled courses, no completed lessons |
| Models.Mentor.constructor | server/models/mntrModel.js:4-36 | a new mentor document has the schema defaults: unverified, no courses, no students |
| Models.Course.constructor | server/models/Course.js:4-29 | a new course has no lessons or students and is unpublished |
| Otp.OtpNumber | server/controllers/stAuthController.js:98 | `Math.floor(100000 + r * 900000)` for `0 <= r < 1` lies in [100000, 999999] |
| Otp.GenerateOtp | server/controllers/stAuthController.js:98-100 | the OTP string has six decimal digits and denotes a number in [100000, 999999] |
| Otp.DecimalRoundTrip | server/controllers/stAuthController.js:98 | reading the decimal string of a number back gives the number |
| Otp.DecimalLength | server/controllers/stAuthController.js:98 | a number with k digits has a k-character decimal string |
| Otp.IssueVerifyOtpFrame | server/controllers/stAuthController.js:98-101 | issuing a verification OTP stores it with an expiry a day ahead and changes no other field |
| Otp.IssueResetOtpFrame | server/controllers/stAuthController.js:173-176 | issuing a reset OTP stores it with an expiry five minutes ahead and changes no other field |
| StudentAuth.Register | server/controllers/stAuthController.js:6-40 | a missing field is refused first, then a taken email; otherwise a fresh student with the hashed password and schema defaults is created, and nothing is created on refusal |
| StudentAuth.Login | server/controllers/stAuthController.js:41-68 | each refusal (missing field, unknown email, wrong password) happens exactly when the earlier guards pass and its own fails; login succeeds only with a stored hash matching the password |
| StudentAuth.SendVerifyOtp | server/controllers/stAuthController.js:83-115 | the reply follows the guards (no id, no student, already verified); on success a six-digit OTP valid for a day is stored and nothing else of the student changes |
| StudentAuth.VerifyAccount | server/controllers/stAuthController.js:116-151 | the reply follows the ordered guards; on success the account is verified and the OTP fields are cleared; on refusal the document is unchanged |
| StudentAuth.VerifyGuardOrder | server/controllers/stAuthController.js:120-146 | each reply of `verifyAccount` happens exactly when every earlier guard passed and its own failed: fields, lookup, already verified, OTP match, expiry |
| StudentAuth.VerifyAcceptedAtExpiry | server/controllers/stAuthController.js:139 | an OTP presented at its expiry instant is accepted, one millisecond later it is expired |
| StudentAuth.VerifyTwiceAlreadyVerified | server/controllers/stAuthController.js:132-146 | after a successful verification every further attempt is answered "already verified" |
| StudentAuth.NewStudentCannotVerify | server/controllers/stAuthController.js:120-141 | a student who never requested an OTP cannot be verified with any OTP |
| StudentAuth.SendThenVerify | server/controllers/stAuthController.js:95-146 | requesting an OTP and presenting it within the day verifies an unverified student |
| StudentAuth.SendResetOtp | server/controllers/stAuthController.js:162-190 | a missing email or unknown student is refused; otherwise a reset OTP valid for five minutes is stored and nothing else changes |
| StudentAuth.ResetPassword | server/controllers/stAuthController.js:192-220 | the reply follows the ordered guards; on success the password is the hash of the new one and the reset fields are cleared; on refusal nothing changes |
| StudentAuth.ResetSucceedsIff | server/controllers/stAuthController.js:195-213 | a reset succeeds exactly with all fields present, a known student, and the stored, non-empty, unexpired reset OTP |
| StudentAuth.ResetOtpSingleUse | server/controllers/stAuthController.js:203-213 | a reset OTP replayed after a successful reset is refused as invalid |
| StudentAuth.ResetWindowIsFiveMinutes | server/controllers/stAuthController.js:173-208 | a freshly issued reset OTP is accepted exactly up to five minutes after it was issued |
| MentorAuth.Register | server/controllers/mentorAuthController.js:10-48 | all four fields including expertise are required, then a free email; otherwise a fresh mentor with defaults; nothing is created on refusal |
| MentorAuth.Login | server/controllers/mentorAuthController.js:51-76 | the mentor login decides exactly as the student login does |
| MentorAuth.SendVerifyOtp | server/controllers/mentorAuthController.js:93-117 | an unknown or verified mentor is refused; otherwise a six-digit OTP valid for a day is stored and nothing else changes |
| MentorAuth.VerifyAccount | server/controllers/mentorAuthController.js:120-143 | the reply follows the ordered guards; on success the mentor is verified and the OTP fields are cleared |
| MentorAuth.VerifySucceedsIff | server/controllers/mentorAuthController.js:123-137 | verification succeeds exactly with the stored OTP before it expires, whether or not the mentor is already verified |
| MentorAuth.VerifyTwiceInvalidOtp | server/controllers/mentorAuthController.js:123-137 | a repeated verification is refused as "Invalid OTP", since the stored OTP is cleared |
| MentorAuth.SendResetOtp | server/controllers/mentorAuthController.js:146-170 | a missing email or unknown mentor is refused; otherwise a five-minute reset OTP is stored and nothing else changes |
| MentorAuth.ResetPassword | server/controllers/mentorAuthController.js:172-195 | the reply follows the ordered guards; on success the password is the new hash and the reset fields are cleared |
| MentorAuth.ResetAgreesWithStudent | server/controllers/mentorAuthController.js:174-189 | without the student's explicit empty-OTP test, the mentor reset still succeeds, refuses and expires on exactly the same inputs |
| MentorAuth.ResetOtpSingleUse | server/controllers/mentorAuthController.js:180-189 | a mentor reset OTP cannot be replayed after a successful reset |
| AuthMiddleware.Split | server/middleware/stAuth.js:8 | `split(" ")` yields at least one piece, and no piece contains a space |
| AuthMiddleware.JoinSplit | server/middleware/stAuth.js:8 | joining the pieces of a split with spaces gives back the split string |
| AuthMiddleware.SplitJoin | server/middleware/stAuth.js:8 | splitting the space-join of space-free pieces gives back the pieces |
| AuthMiddleware.BearerSplit | server/middleware/stAuth.js:8 | a `Bearer ` header whose token ends the header or is followed by a space yields exactly that token |
| AuthMiddleware.BearerHeader | server/middleware/stAuth.js:8 | a `Bearer <token>` header, with or without further parts, yields exactly the token |
| AuthMiddleware.NonBearerHeader | server/middleware/mentorAuth.js:8-11 | a header without the `Bearer ` prefix yields no token |
| AuthMiddleware.SelectTokenPrecedence | server/middleware/stAuth.js:6-9 | the token is the cookie, else the Bearer token, else `body.token`, else `query.token` |
| AuthMiddleware.Decide | server/middleware/stAuth.js:11-33 | an authorized request always carries a non-empty id |
| AuthMiddleware.TokensBoundToRole | server/middleware/mentorAuth.js:28-35 | a token with only a `studentId` claim yields no mentor id, and one with only a `mentorId` claim yields no student id |
| AuthMiddleware.GenericIdClaimServesBothRoles | server/middleware/stAuth.js:18-21 | a token with only the generic `id` claim gives the same id to both middlewares |
| AuthMiddleware.Request.constructor | server/middleware/stAuth.js:4 | a request starts with no id set and `next` not called |
| AuthMiddleware.StAuth | server/middleware/stAuth.js:4-33 | the outcome is the decision on the selected token, with the id from `studentId`, `id` or `userId`; success sets `req.stId` and `req.body.stId` to the same id and calls `next`; a 401 changes nothing |
| AuthMiddleware.MentorAuth | server/middleware/mentorAuth.js:4-49 | the same for mentors with `mentorId`, `id` or `userId`; success sets `req.mentorId` and `req.body.mentorId` and calls `next` |
| AuthMiddleware.NoTokenUnauthorized | server/middleware/stAuth.js:11-13 | with no token in any source both middlewares answer 401, whatever the verifier would say |
| StudentController.CourseIds | server/controllers/stcontroller.js:60 | the course ids of the enrolled-course entries, position by position |
| StudentController.AddEnrolledCourseSpec | server/controllers/stcontroller.js:60-64 | after enrolling, the list names the course, keeps old entries as a prefix, and any added entry is the course at progress 0; an existing entry means no change |
| StudentController.AddEnrolledCourseIds | server/controllers/stcontroller.js:54-64 | on course ids the student-side push is the same set-like ledger as the course side |
| StudentController.EnrollTwiceOneEntry | server/controllers/stcontroller.js:60-64 | enrolling twice in a new course leaves exactly one entry for it |
| StudentController.EnrollOutcome | server/controllers/stcontroller.js:42-70 | enrollment succeeds exactly for a found, verified student and an existing course; an unverified student is refused before the course is looked up |
| StudentController.EnrollInCourse | server/controllers/stcontroller.js:42-70 | on success both sides are push-if-absent ledgers naming each other; on every refusal neither array changes; no other field of either document changes |
| StudentController.EnrollmentSymmetric | server/controllers/stcontroller.js:54-64 | after enrolling, the course lists the student and the student lists the course |
| StudentController.DraftProgressIsNaN | server/controllers/stcontroller.js:88-94 | the draft's progress formula is NaN whatever the course holds |
| StudentController.CourseProgressBounds | server/controllers/stcontroller.js:88-94 | with a count as numerator the progress is a finite percentage in [0, 100]; it is 100 exactly when all lessons are done, and 0 exactly when none is |
| StudentController.LessonIds | server/routes/stRoutes.js:19-21 | the lesson ids of the completion ledger, position by position |
| StudentController.CountCompleted | server/controllers/stcontroller.js:88-90 | the number of the course's lessons that are completed is at most the lesson count, and equals it exactly when every lesson is completed |
| StudentController.IndexOfCourse | server/controllers/stcontroller.js:95-98 | the position of the first entry for a course |
| StudentController.SetCourseProgressSpec | server/controllers/stcontroller.js:95-98 | the positional `$set` changes the progress of exactly the first entry for the course, and nothing when there is none |
| StudentController.SetCourseProgressAbsent | server/controllers/stcontroller.js:95-98 | with no entry for the course the positional update changes nothing |
| StudentController.SetCourseProgressAt | server/controllers/stcontroller.js:95-98 | the positional update replaces the progress of the first entry for the course and keeps every other entry |
| StudentController.SetEnrollmentProgress | server/controllers/stcontroller.js:100-103 | `updateOne` changes the progress of at most one record, and only a record matching student and course |
| StudentController.SetEnrollmentProgressAbsent | server/controllers/stcontroller.js:100-103 | with no record matching student and course `updateOne` changes nothing |
| StudentController.SetEnrollmentProgressAt | server/controllers/stcontroller.js:100-103 | `updateOne` sets the progress of the first record matching student and course and keeps every other record |
| StudentController.EnrollmentCollection.constructor | server/models/Enrollment.js:4-21 | the Enrollment collection starts empty |
| StudentController.CompleteLesson | server/controllers/stcontroller.js:74-109 | an unknown lesson is refused with no write, and a missing student is a 500 with no Enrollment write; a found lesson with an existing student always succeeds; then the lesson is appended to the ledger and one progress value, computed from the lesson's own course, goes to the reply, the student's entry and the Enrollment record |
| StudentController.CompletedLessonCounts | server/controllers/stcontroller.js:83-90 | the lesson just completed is counted, so a completion reports positive progress |
| StudentController.GetStudentData | server/controllers/stcontroller.js:7-39 | a missing student is a 404; otherwise name, email, verified flag and enrolled courses copied, and one `{courseId, progress}` per enrolled course, in order |
| StudentController.ProgressOf | server/controllers/stcontroller.js:29-32 | the progress view mirrors the enrolled-course entries position by position |
| StudentController.GetEnrolledCourses | server/controllers/stcontroller.js:112-132 | a missing student is a 404; an entry whose course is gone makes it a 500; otherwise one view per entry, in order, with the course's title and category and the entry's progress |
| StudentController.Views | server/controllers/stcontroller.js:122-127 | the mapping fails exactly when some entry's course is missing, and otherwise views each entry in order |
| StudentRoutes.MarkCompletedAppendOnly | server/routes/stRoutes.js:19-25 | the ledger grows only at its end, by at most one record, and afterwards holds the lesson; a new lesson adds exactly its record |
| StudentRoutes.MarkCompletedIdempotent | server/routes/stRoutes.js:19-25 | repeating the call with the same lesson id changes nothing, whatever course id it carries |
| StudentRoutes.MarkCompletedKeepsDistinct | server/routes/stRoutes.js:19-25 | a ledger written only by this handler never holds a lesson id twice |
| StudentRoutes.MarkCompletedKeepsPresent | server/routes/stRoutes.js:22-23 | requests that carry a lesson id only store records that carry one |
| StudentRoutes.AlreadyDoneThrowsIff | server/routes/stRoutes.js:19-21 | the `some` scan throws exactly when a record without a lesson id comes before every record matching the request |
| StudentRoutes.AlreadyDoneAnswer | server/routes/stRoutes.js:19-21 | when the scan completes it answers whether the lesson id is already recorded |
| StudentRoutes.AlreadyDoneTotal | server/routes/stRoutes.js:19-21 | over records that all carry a lesson id the scan never throws and answers whether the id is recorded |
| StudentRoutes.CompleteLessonRoute | server/routes/stRoutes.js:15-28 | the handler answers success exactly when the student exists and the scan does not throw; it then stores the request's record if the lesson id is new and changes nothing else; a request without `lessonId` is stored too, and no enrollment or lesson check is made |
| StudentRoutes.AbsentLessonIdPoisons | server/routes/stRoutes.js:19-23 | once a request without `lessonId` has been stored, every later request for a lesson not recorded before it throws |
| StudentRoutes.CompletedIdsFor | server/routes/stRoutes.js:70-75 | the filtered projection is no longer than the ledger |
| StudentRoutes.CompletedIdsForMembers | server/routes/stRoutes.js:70-75 | a lesson id is listed exactly when some record with that id matches the course |
| StudentRoutes.CompletedIdsForAppend | server/routes/stRoutes.js:70-75 | the projection keeps stored order: it distributes over appending records |
| StudentRoutes.MarkThenList | server/routes/stRoutes.js:19-25 | a newly marked lesson appears at the end of the list for the course it was marked under |
| StudentRoutes.GetCompletedLessonsAsWritten | server/routes/stRoutes.js:59-88 | as written: a missing student is a 404; otherwise the filter uses the body's course id |
| StudentRoutes.BodylessRequestListsNothing | server/routes/stRoutes.js:61 | a request without a body lists nothing for lessons recorded under real course ids |
| StudentRoutes.GetCompletedLessons | server/routes/stRoutes.js:59-88 | with the path's course id: a missing student is a 404, otherwise at most as many ids as records |
| StudentRoutes.GetCompletedLessonsMembers | server/routes/stRoutes.js:70-77 | through the path parameter exactly the lessons recorded under that course are listed |
| StudentRoutes.MarkedLessonIsListed | server/routes/stRoutes.js:22-25 | a lesson marked under a course is then listed for it |
| QuizRoutes.FindQuiz | server/routes/quizRoutes.js:25 | `findOne({ courseId })` finds the first quiz of the course, and finds none exactly when the course has none |
| QuizRoutes.UpsertStores | server/routes/quizRoutes.js:25-33 | after the upsert the course's quiz is the new document |
| QuizRoutes.UpsertOthers | server/routes/quizRoutes.js:25-33 | the upsert leaves the quizzes of other courses unchanged |
| QuizRoutes.UpsertOnePerCourse | server/routes/quizRoutes.js:25-33 | the upsert preserves "at most one quiz per course" |
| QuizRoutes.QuizCollection.constructor | server/models/Quiz.js:4-22 | the quiz collection starts empty |
| QuizRoutes.NewQuiz | server/routes/quizRoutes.js:23-33 | the written document belongs to the requested course and holds the requested questions |
| QuizRoutes.CreateQuiz | server/routes/quizRoutes.js:14-40 | a missing course id or empty question list is a 400 without writes; a question the schema refuses makes the save fail without writes; otherwise the course's quiz is upserted with total marks equal to the question count |
| QuizRoutes.GetQuiz | server/routes/quizRoutes.js:43-52 | the lookup is a 404 exactly when the course has no quiz, and otherwise returns a stored quiz of that course |
| QuizRoutes.ScoreUpToBounds | server/routes/quizRoutes.js:97-100 | the score over the first n questions is at most n, and equals n exactly when each of them is hit |
| QuizRoutes.ScoreBounds | server/routes/quizRoutes.js:97-100 | the score lies between 0 and the question count, and reaches the count exactly when every answer is correct |
| QuizRoutes.BlankAnswersScoreZero | server/routes/quizRoutes.js:99 | missing or blank answers never score |
| QuizRoutes.ScoreIgnoresExtraAnswers | server/routes/quizRoutes.js:98-100 | answers beyond the last question do not change the score |
| QuizRoutes.CreatedQuizTotal | server/routes/quizRoutes.js:95 | for a quiz written by `/create` the reported total is the question count |
| QuizRoutes.SubmitQuiz | server/routes/quizRoutes.js:88-121 | an unknown quiz is a 404; a missing answer list or student is a 500; otherwise the score is the positional hit count, `passed` is `score >= passingMarks`, the total is `totalMarks` or the question count, and the course's result is overwritten |
| CourseController.CreateCourseOutcome | server/controllers/courseController.js:8-36 | a course is created exactly for a found, verified mentor and a document the schema accepts; an unverified mentor gets a 403 |
| CourseController.CreateCourseAsWrittenNeverCreates | server/controllers/courseController.js:19-26 | as written no course is ever created, since the document lacks the required category |
| CourseController.CreateCourse | server/controllers/courseController.js:8-36 | on success a fresh course owned by the mentor, free, unpublished and empty, whose id is appended to `mentor.courses`; on refusal nothing is created or changed |
| CourseController.PublishedCourses | server/controllers/courseController.js:60-72 | the listing holds exactly the published courses |
| CourseController.CourseAccess | server/controllers/courseController.js:90-127 | on the course document: a missing course is a 404; the page is granted exactly to the mentor who owns it (when the instructor document exists) and to a student in `enrolledStudents` |
| CourseController.AccessDecisionIff | server/controllers/courseController.js:90-134 | a missing course is a 404; otherwise access is granted exactly to the owning mentor and to enrolled students |
| CourseController.EnrolledStudentGranted | server/controllers/courseController.js:115-122 | a student whose enrollment went through may open the course |
| CourseController.AnonymousViewerDenied | server/controllers/courseController.js:125-127 | with no mentor and no student on the request, an existing course is refused |
| CourseController.PublishMessageDistinct | server/controllers/courseController.js:151-156 | the success message tells the two new states apart |
| CourseController.ToggleCoursePublish | server/controllers/courseController.js:140-160 | a missing course is a 404; otherwise `isPublished` is negated, the message names the new state, and no other field changes |
| CourseController.ToggleTwice | server/controllers/courseController.js:148 | toggling twice restores the original publication state |
| LessonController.LessonCollection.constructor | server/models/Lesson.js:4-17 | the lesson collection starts empty |
| LessonController.AddLessonOutcome | server/controllers/lessonController.js:5-25 | a missing field is refused first, then a missing course, then a content type outside the enum; the created lesson carries the request's fields and course id at order 0 |
| LessonController.AddLesson | server/controllers/lessonController.js:5-25 | on success the lesson is appended to the collection and its id to the end of `course.lessons`; on refusal nothing changes; lessons listed by the course keep naming it |
| LessonController.Insert | server/controllers/lessonController.js:31 | inserting adds exactly one element |
| LessonController.InsertMultiset | server/controllers/lessonController.js:31 | insertion adds exactly the new lesson |
| LessonController.InsertSorted | server/controllers/lessonController.js:31 | insertion into a list sorted by `order` keeps it sorted |
| LessonController.SortByOrder | server/controllers/lessonController.js:31 | the sort yields a permutation of its input sorted ascending by `order` |
| LessonController.GetLessonsByCourse | server/controllers/lessonController.js:28-36 | the listing is exactly the course's lessons, sorted ascending by `order` |
| LessonController.AddedLessonListed | server/controllers/lessonController.js:15-36 | a lesson just added is listed for its course |
| StudentDashboard.CountFor | client/src/pages/StudentDashboard.jsx:147-149 | the completed count is at most the number of completion records |
| StudentDashboard.LessonTotal | client/src/pages/StudentDashboard.jsx:150 | the divisor is at least 1, and is the lesson count when there are lessons |
| StudentDashboard.PercentEnds | client/src/pages/StudentDashboard.jsx:151 | nothing completed shows 0%, everything completed shows 100% |
| StudentDashboard.PercentMonotone | client/src/pages/StudentDashboard.jsx:151 | more completions never show a smaller percentage |
| StudentDashboard.PercentAtMost100 | client/src/pages/StudentDashboard.jsx:151 | with no more completions than lessons the percentage is at most 100 |
| StudentDashboard.PercentIs100Iff | client/src/pages/StudentDashboard.jsx:151 | the rounded percentage is 100 exactly when at least 99.5% of the lessons are completed |
| StudentDashboard.CertificateBeforeLastLesson | client/src/pages/StudentDashboard.jsx:151-181 | as written, 199 of 200 lessons already offer the certificate |
| StudentDashboard.EarlyCertificateNeedsLongCourse | client/src/pages/StudentDashboard.jsx:151-181 | a certificate with lessons still open needs a course of at least 200 lessons |
| StudentDashboard.FloorPercentFullIff | client/src/pages/StudentDashboard.jsx:151 | rounded down, the percentage is at most 100 and is 100 exactly when every lesson is completed |
| StudentDashboard.CertificateDueIffFinished | client/src/pages/StudentDashboard.jsx:181-194 | the corrected certificate condition holds exactly for a finished course, and implies the page's condition |
| StudentDashboard.DashboardProgressAlwaysZero | client/src/pages/StudentDashboard.jsx:147-151 | with the data `getStudentData` serves, every course card shows 0% and no certificate |
| StudentDashboard.NoCourseShowsEnrolled | client/src/pages/StudentDashboard.jsx:32-46 | with the list `fetchData` stores, no course counts as enrolled: View is always disabled, and Enroll is disabled only for an unverified student |
| StudentDashboard.EnrollMessageOfServer | client/src/pages/StudentDashboard.jsx:79-87 | an accepted enroll shows the success toast, and each refusal shows its own reason |
| StudentDashboard.Dashboard.constructor | client/src/pages/StudentDashboard.jsx:7-12 | the page starts with no student, no courses, no toast and no modal |
| StudentDashboard.Dashboard.FetchData | client/src/pages/StudentDashboard.jsx:15-38 | a failed load only shows the failure toast; a successful one stores the student view and the course list, and an empty list of own courses |
| StudentDashboard.Dashboard.EnrollCourse | client/src/pages/StudentDashboard.jsx:64-88 | an unverified student gets the modal and a toast and no request is sent; otherwise one request is sent, the toast reports the answer, and a success reloads the data |
| CourseView.AssembleAnswers | client/src/pages/StCourseView.jsx:80 | one answer per question |
| CourseView.AssembleAnswersAt | client/src/pages/StCourseView.jsx:80 | each assembled answer is the picked one, or "" where none was picked |
| CourseView.ScoringNeedsPickedAnswer | client/src/pages/StCourseView.jsx:80 | a question scores on the server only when an answer was picked for it and it is the correct one |
| CourseView.NothingPickedScoresZero | client/src/pages/StCourseView.jsx:80 | a quiz submitted without any picked answer scores 0 |
| CourseView.CoursePage.constructor | client/src/pages/StCourseView.jsx:28-30 | the page starts at the first lesson with the fetched completions, no answers and no submission |
| CourseView.CoursePage.MarkLessonCompleted | client/src/pages/StCourseView.jsx:42-56 | only a reply with `success` records the lesson, once, with the success toast; a rejected request shows the failure toast; a reply without `success` changes nothing |
| CourseView.CoursePage.SelectLesson | client/src/pages/StCourseView.jsx:125-127 | a click on entry idx moves there exactly when idx is the first lesson or its predecessor is completed |
| CourseView.CoursePage.HandleNextLesson | client/src/pages/StCourseView.jsx:59-69 | the shown lesson is marked, then the page advances one lesson, or on the last lesson moves to the quiz when there is one and stays otherwise; after a successful mark the new lesson is unlocked |
| CourseView.CoursePage.SelectAnswer | client/src/pages/StCourseView.jsx:72-74 | selecting an answer sets that entry and keeps every other entry |
| CourseView.CoursePage.SubmitQuiz | client/src/pages/StCourseView.jsx:77-102 | without a quiz nothing is sent; otherwise the assembled answers are sent, and a scored reply is kept, ends the submission and sets the pass or fail toast; any other reply shows only the error toast |
| MentorDashboard.ReduceIsSum | client/src/pages/test.jsx:55-58 | the reduce adds the enrollment sum over the courses to its start value |
| MentorDashboard.TotalStudentsIs | client/src/pages/test.jsx:53-58 | the total is the mentor's own student count when non-zero, otherwise the enrollments summed over the courses |
| MentorDashboard.NewCourseKeepsTotal | client/src/pages/test.jsx:53-58 | a new course without enrollments, put in front, leaves the total unchanged |
| MentorDashboard.QuestionCompleteIffValid | client/src/pages/test.jsx:122-127 | the page accepts exactly the questions whose required strings the quiz schema accepts |
| MentorDashboard.SentCourseNeverCreated | client/src/pages/test.jsx:74-94 | the course the page sends, with no category, is never created by the server |
| MentorDashboard.SentLessonRefused | client/src/pages/test.jsx:96-118 | the lesson the page sends, whose type travels as `type`, is refused by the server for a missing field |
| MentorDashboard.CompleteQuestionsValid | client/src/pages/test.jsx:121-139 | questions collected by the page never make the quiz save fail |
| MentorDashboard.MentorPage.constructor | client/src/pages/test.jsx:9-25 | the page starts with empty forms, an empty draft of four options, no toast and nothing sent |
| MentorDashboard.MentorPage.CreateCourse | client/src/pages/test.jsx:74-94 | an unverified mentor gets the modal, a missing field a toast, and nothing is sent; otherwise the form is sent, and a reply with a course prepends it and clears the form |
| MentorDashboard.MentorPage.AddLesson | client/src/pages/test.jsx:96-118 | an unverified mentor gets the modal, a missing course, title or URL a toast; otherwise the form is sent and every resolved reply clears it |
| MentorDashboard.MentorPage.AddQuestionToList | client/src/pages/test.jsx:121-139 | an incomplete draft only gets a toast; a complete one is appended and the draft is reset; every collected question stays complete |
| MentorDashboard.MentorPage.EditOption | client/src/pages/test.jsx:345-349 | editing option i replaces that option alone |
| MentorDashboard.MentorPage.UploadQuiz | client/src/pages/test.jsx:141-162 | an unverified mentor gets the modal, no course or no question a toast, and nothing is sent; otherwise the quiz is sent and a reply with `success` clears the form |

## Left out

- Cryptography and randomness are parameters: bcrypt `hash`/`compare`, `jwt.sign`/`jwt.verify` (a function from token to optional claims), `Math.random()` (a real in [0, 1)) and `Date.now()` (an integer).
- Mail sending, cookies, logout and `isStAuthenticated` have no sequential logic of their own and are not modelled.
- Persistence: collections are sequences held in memory. `save`, `populate` and `countDocuments` are left out, and so are the non-transactional pair of saves in `enrollInCourse` and concurrent requests. ObjectId casting, email lowercasing and `trim` are not modelled.
- Express wiring and route files are not modelled; server/server.js mounts only two routers, so most routes are unreachable in the deployed app.
- server/controllers/mentorController.js, `updateCourse`, `getMentorCourses` and the second `getEnrolledCourses` in courseController.js are not part of this model.
- Superseded page drafts (StudentDashboard1/2, StCourseView1, MentorDashboard1) and presentation code (styles, animation, loading flags, navigation) are not part of this model.
- Floating point: `Math.round` on the dashboard is modelled as exact round-half-up of 100·completed/total in integers; the draft progress is modelled on exact rationals with NaN.
- StudentController.CompleteLesson: uses the number of the course's lessons found in the ledger as the numerator; the draft's own numerator is the NaN of StudentController.DraftProgress.
- AuthMiddleware.Decide: any exception from `jwt.verify` is the `None` of the verifier parameter; a token that is present but decodes to claims with no id is a 401, as in the source.
- CourseController.CourseAccess: `getCourseDetails` reads `req.params.id` while the route is `/:courseId`, and no middleware sets `req.mentor`/`req.student`; the model states the decision on the ids it would read and proves (`AnonymousViewerDenied`) that without them every course is refused.
- CourseController.CreateCourse: `req.mentor` is never set by the mentor middleware (it sets `req.mentorId`), so the deployed handler always throws; the model takes the mentor document as a parameter.
- QuizRoutes.SubmitQuiz: `quizResults` is not a path of the student schema, so `save()` stores nothing; the model returns the assigned map instead of changing the student. Results never persist, so `prior` is absent on every request and no submission sees an earlier result.
- QuizRoutes.CreateQuiz: a `passingMarks` string from the client is cast to a number by Mongoose; the model takes the number (absent reads as 0).
- StudentDashboard.Dashboard.FetchData: the page stores `data.courses` of the enrolled-courses reply, which has its list under `enrolledCourses`, so `myCourses` is always empty; the model states that value.
- CourseView.CoursePage.HandleNextLesson: the move does not wait for a successful mark, as in the source.
- MentorDashboard.MentorPage.CreateCourse: the course form has no category field, so the server refuses every course the page sends (`SentCourseNeverCreated`).
- LessonController.GetLessonsByCourse: MongoDB leaves the order of equal `order` values open; the model fixes one.

## Findings

| source | as written | input that shows it | evidently intended | confidence | as-written member | corrected member |
|---|---|---|---|---|---|---|
| server/controllers/stcontroller.js:88-94 | the numerator is `.length` of a document, so progress is NaN; Mongoose's Number cast refuses NaN, so the `$set` fails and the draft answers 500 instead of a progress | any existing lesson of a course with at least one lesson | progress = completed lessons of the course / lesson count × 100, capped at 100 | not executed | StudentController.DraftProgressIsNaN | StudentController.CourseProgressBounds |
| server/routes/stRoutes.js:61 | the GET handler filters by `req.body.courseId`, which a bodyless GET leaves undefined | a student with lessons marked under course c requesting `/get-completed-lessons/c` without a body gets [] | filter by the path parameter `courseId` | not executed | StudentRoutes.BodylessRequestListsNothing | StudentRoutes.GetCompletedLessonsMembers |
| server/controllers/courseController.js:19-26 | the created document has no `category`, which server/models/Course.js:8 requires | a verified mentor posting any title and description | pass the request's category to the document | not executed | CourseController.CreateCourseAsWrittenNeverCreates | CourseController.CreateCourse |
| client/src/pages/StudentDashboard.jsx:151-181 | `Math.round` shows 100% and the certificate before every lesson is completed | 199 of 200 lessons completed | a certificate only for a finished course (round down) | not executed | StudentDashboard.CertificateBeforeLastLesson | StudentDashboard.CertificateDueIffFinished |
