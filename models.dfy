/**
 * The records of the Mongoose schemas (server/models): the value-like parts as datatypes,
 * the documents whose fields the controllers assign in place as classes.
 */
module Models {
  import opened Common

  /** A JavaScript Number as far as progress values need it: an exact rational or NaN. */
  datatype JsNumber = Finite(value: real) | NaN

  /** `undefined` or an object without a numeric value, converted to a Number. */
  const Undefined: JsNumber := NaN

  /** `a / b` for a non-zero finite divisor; NaN propagates. */
  function JsDivide(a: JsNumber, b: real): JsNumber
    requires b != 0.0
  {
    match a
    case NaN => NaN
    case Finite(x) => Finite(x / b)
  }

  function JsTimes(a: JsNumber, b: real): JsNumber {
    match a
    case NaN => NaN
    case Finite(x) => Finite(x * b)
  }

  /** `Math.min(a, b)`: NaN when either argument is NaN. */
  function JsMin(a: JsNumber, b: real): JsNumber {
    match a
    case NaN => NaN
    case Finite(x) => Finite(if x <= b then x else b)
  }

  /** One entry of `student.enrolledCourses` (enrolledAt, a clock value, is left out). */
  datatype EnrolledCourse = EnrolledCourse(courseId: Id, progress: JsNumber)

  /** One entry of `student.completedLessons`; either id may be `undefined`, since neither is required. */
  datatype CompletedLesson = CompletedLesson(courseId: Option<Id>, lessonId: Option<Id>)

  /** The in-memory `quizResults[courseId]` value written by quiz submission. */
  datatype QuizResult = QuizResult(score: nat, passed: bool)

  datatype Question = Question(questionText: string, options: seq<string>, correctAnswer: string)

  /** A lesson document; lessons are created and never assigned to afterwards. */
  datatype Lesson = Lesson(id: Id, title: string, contentType: string, contentUrl: string,
                           courseId: Id, order: int)

  /** `LessonModel.findById(id)` over a snapshot of the lesson collection. */
  function FindLesson(lessons: seq<Lesson>, id: Id): (r: Option<Lesson>)
    ensures r.Some? ==> r.value in lessons && r.value.id == id
    ensures r.None? ==> forall i :: 0 <= i < |lessons| ==> lessons[i].id != id
  {
    if lessons == [] then None
    else if lessons[0].id == id then Some(lessons[0])
    else FindLesson(lessons[1..], id)
  }

  /** `LessonModel.find({ courseId })`, in collection order. */
  function LessonsOf(lessons: seq<Lesson>, courseId: Id): (r: seq<Lesson>)
    ensures |r| <= |lessons|
    ensures forall l :: l in r <==> l in lessons && l.courseId == courseId
  {
    if lessons == [] then []
    else (if lessons[0].courseId == courseId then [lessons[0]] else []) + LessonsOf(lessons[1..], courseId)
  }

  /** A document of the Enrollment collection (enrolledAt left out). */
  datatype EnrollmentRecord = EnrollmentRecord(studentId: Id, courseId: Id, progress: JsNumber,
                                               completed: bool)

  /** The five OTP fields and the password hash shared by student and mentor accounts. */
  datatype OtpState = OtpState(verifyOtp: string, verifyOtpExpireAt: int, isAccountVerified: bool,
                               resetOtp: string, resetOtpExpireAt: int, password: string)

  /** The schema defaults of the OTP fields for a new account holding `password`. */
  function NewAccount(password: string): (s: OtpState)
    ensures !s.isAccountVerified && s.verifyOtp == "" && s.resetOtp == ""
  {
    OtpState("", 0, false, "", 0, password)
  }

  /** A student document (server/models/stModel.js). */
  class Student {
    const id: Id
    var name: string
    var email: string
    var password: string
    var verifyOtp: string
    var verifyOtpExpireAt: int
    var isAccountVerified: bool
    var resetOtp: string
    var resetOtpExpireAt: int
    var enrolledCourses: seq<EnrolledCourse>
    var completedLessons: seq<CompletedLesson>

    /** A new document with the schema defaults. */
    constructor (id: Id, name: string, email: string, password: string)
      ensures this.id == id && this.name == name && this.email == email
      ensures Otp() == NewAccount(password)
      ensures enrolledCourses == [] && completedLessons == []
    {
      this.id := id;
      this.name := name;
      this.email := email;
      this.password := password;
      verifyOtp, verifyOtpExpireAt, isAccountVerified := "", 0, false;
      resetOtp, resetOtpExpireAt := "", 0;
      enrolledCourses, completedLessons := [], [];
    }

    function Otp(): OtpState
      reads this
    {
      OtpState(verifyOtp, verifyOtpExpireAt, isAccountVerified, resetOtp, resetOtpExpireAt, password)
    }
  }

  /** A mentor document (server/models/mntrModel.js). */
  class Mentor {
    const id: Id
    var name: string
    var email: string
    var password: string
    var expertise: string
    var verifyOtp: string
    var verifyOtpExpireAt: int
    var isAccountVerified: bool
    var resetOtp: string
    var resetOtpExpireAt: int
    var courses: seq<Id>
    var students: seq<Id>

    constructor (id: Id, name: string, email: string, password: string, expertise: string)
      ensures this.id == id && this.name == name && this.email == email && this.expertise == expertise
      ensures Otp() == NewAccount(password)
      ensures courses == [] && students == []
    {
      this.id := id;
      this.name := name;
      this.email := email;
      this.password := password;
      this.expertise := expertise;
      verifyOtp, verifyOtpExpireAt, isAccountVerified := "", 0, false;
      resetOtp, resetOtpExpireAt := "", 0;
      courses, students := [], [];
    }

    function Otp(): OtpState
      reads this
    {
      OtpState(verifyOtp, verifyOtpExpireAt, isAccountVerified, resetOtp, resetOtpExpireAt, password)
    }
  }

  /** A course document (server/models/Course.js). */
  class Course {
    const id: Id
    var title: string
    var description: string
    var category: string
    var instructor: Id
    var price: int
    var lessons: seq<Id>
    var enrolledStudents: seq<Id>
    var isPublished: bool

    /** A new, unpublished course with no lessons and no students. */
    constructor (id: Id, title: string, description: string, category: string, instructor: Id, price: int)
      ensures this.id == id && this.title == title && this.description == description
      ensures this.category == category
      ensures this.instructor == instructor && this.price == price
      ensures lessons == [] && enrolledStudents == [] && !isPublished
    {
      this.id := id;
      this.title := title;
      this.description := description;
      this.category := category;
      this.instructor := instructor;
      this.price := price;
      lessons, enrolledStudents, isPublished := [], [], false;
    }
  }
}
