/**
 * Student account handlers (server/controllers/stAuthController.js): registration and login
 * guards, and the verification and password-reset state machines on the OTP fields.
 * Hashing, password comparison, OTP randomness and the clock are parameters; mail and
 * cookies are not modelled.
 */
module StudentAuth {
  import opened Common
  import opened Models
  import Otp

  datatype RegisterReply = FillAllFields | StudentExists | Registered
  datatype LoginReply = LoginFillAllFields | InvalidEmail | InvalidPassword | LoggedIn
  datatype SendVerifyReply = IdRequired | SendVerifyFailed | AlreadyVerified | VerifyOtpSent
  datatype VerifyReply = ProvideAllDetails | StudentNotFound | AccountAlreadyVerified
                       | InvalidOtp | OtpExpired | EmailVerified
  datatype SendResetReply = EmailRequired | ResetStudentNotFound | ResetOtpSent
  datatype ResetReply = ResetFieldsRequired | ResetNotFound | ResetInvalidOtp | ResetOtpExpired
                      | PasswordReset

  function AccountOf(s: Student?): Option<OtpState>
    reads s
  {
    if s == null then None else Some(s.Otp())
  }

  /** Everything of a student document besides the OTP fields: what the OTP handlers leave alone. */
  function Rest(s: Student): (string, string, seq<EnrolledCourse>, seq<CompletedLesson>)
    reads s
  {
    (s.name, s.email, s.enrolledCourses, s.completedLessons)
  }

  // ---------------------------------------------------------------- register / login

  /** `register`: missing fields first, then an email already in use; otherwise a new document. */
  method Register(name: string, email: string, password: string, emailTaken: bool, newId: Id,
                  hash: string -> string)
    returns (r: RegisterReply, student: Student?)
    ensures r == FillAllFields <==> (name == "" || email == "" || password == "")
    ensures r == StudentExists <==> (name != "" && email != "" && password != "" && emailTaken)
    ensures r != Registered ==> student == null
    ensures r == Registered ==>
              && student != null && fresh(student) && student.id == newId
              && student.name == name && student.email == email
              && student.Otp() == NewAccount(hash(password))
              && student.enrolledCourses == [] && student.completedLessons == []
  {
    if name == "" || email == "" || password == "" {
      return FillAllFields, null;
    }
    if emailTaken {
      return StudentExists, null;
    }
    student := new Student(newId, name, email, hash(password));
    r := Registered;
  }

  /**
   * `login`: missing fields, then an unknown email (`storedHash` is None), then a password
   * that does not match the stored hash.
   */
  function Login(email: string, password: string, storedHash: Option<string>,
                 compare: (string, string) -> bool): (r: LoginReply)
    ensures r == LoginFillAllFields <==> (email == "" || password == "")
    ensures r == InvalidEmail <==> (email != "" && password != "" && storedHash.None?)
    ensures r == InvalidPassword <==>
      (email != "" && password != "" && storedHash.Some? && !compare(password, storedHash.value))
    ensures r == LoggedIn ==> storedHash.Some? && compare(password, storedHash.value)
  {
    if email == "" || password == "" then LoginFillAllFields
    else if storedHash.None? then InvalidEmail
    else if !compare(password, storedHash.value) then InvalidPassword
    else LoggedIn
  }

  // ---------------------------------------------------------------- account verification

  /** The reply of `sendVerifyOtp`; a missing document makes `student.isAccountVerified` throw. */
  function SendVerifyOutcome(stId: Id, account: Option<OtpState>): SendVerifyReply {
    if stId == "" then IdRequired
    else if account.None? then SendVerifyFailed
    else if account.value.isAccountVerified then AlreadyVerified
    else VerifyOtpSent
  }

  /** `sendVerifyOtp`: `rand` is the value of `Math.random()`, `now` that of `Date.now()`. */
  method SendVerifyOtp(stId: Id, student: Student?, rand: real, now: int) returns (r: SendVerifyReply)
    requires 0.0 <= rand < 1.0
    requires student != null ==> student.id == stId
    modifies student
    ensures r == SendVerifyOutcome(stId, old(AccountOf(student)))
    ensures student != null ==> Rest(student) == old(Rest(student))
    ensures student != null ==>
              student.Otp() ==
              (if r == VerifyOtpSent then Otp.IssueVerifyOtp(old(student.Otp()), Otp.GenerateOtp(rand), now)
               else old(student.Otp()))
  {
    if stId == "" {
      return IdRequired;
    }
    if student == null {
      return SendVerifyFailed;
    }
    if student.isAccountVerified {
      return AlreadyVerified;
    }
    var otp := Otp.GenerateOtp(rand);
    student.verifyOtp := otp;
    student.verifyOtpExpireAt := now + Otp.DayMs;
    r := VerifyOtpSent;
  }

  /** The ordered guards of `verifyAccount`. */
  function VerifyOutcome(stId: Id, otp: string, account: Option<OtpState>, now: int): VerifyReply {
    if stId == "" || otp == "" then ProvideAllDetails
    else if account.None? then StudentNotFound
    else if account.value.isAccountVerified then AccountAlreadyVerified
    else if account.value.verifyOtp != otp then InvalidOtp
    else if account.value.verifyOtpExpireAt < now then OtpExpired
    else EmailVerified
  }

  /** `verifyAccount`: on success the account is verified and the OTP fields are cleared. */
  method VerifyAccount(stId: Id, otp: string, student: Student?, now: int) returns (r: VerifyReply)
    requires student != null ==> student.id == stId
    modifies student
    ensures r == VerifyOutcome(stId, otp, old(AccountOf(student)), now)
    ensures student != null ==> Rest(student) == old(Rest(student))
    ensures student != null ==>
              student.Otp() ==
              (if r == EmailVerified then Otp.ConfirmVerified(old(student.Otp())) else old(student.Otp()))
  {
    if stId == "" || otp == "" {
      return ProvideAllDetails;
    }
    if student == null {
      return StudentNotFound;
    }
    if student.isAccountVerified {
      return AccountAlreadyVerified;
    }
    if student.verifyOtp != otp {
      return InvalidOtp;
    }
    if student.verifyOtpExpireAt < now {
      return OtpExpired;
    }
    student.isAccountVerified := true;
    student.verifyOtp := "";
    student.verifyOtpExpireAt := 0;
    r := EmailVerified;
  }

  /** Each reply of `verifyAccount` happens exactly when every earlier guard passed and its own failed. */
  lemma VerifyGuardOrder(stId: Id, otp: string, account: Option<OtpState>, now: int)
    ensures VerifyOutcome(stId, otp, account, now) == ProvideAllDetails <==> (stId == "" || otp == "")
    ensures VerifyOutcome(stId, otp, account, now) == StudentNotFound <==>
      (stId != "" && otp != "" && account.None?)
    ensures VerifyOutcome(stId, otp, account, now) == AccountAlreadyVerified <==>
      (stId != "" && otp != "" && account.Some? && account.value.isAccountVerified)
    ensures VerifyOutcome(stId, otp, account, now) == InvalidOtp <==>
      (stId != "" && otp != "" && account.Some? && !account.value.isAccountVerified
       && account.value.verifyOtp != otp)
    ensures VerifyOutcome(stId, otp, account, now) == OtpExpired <==>
      (stId != "" && otp != "" && account.Some? && !account.value.isAccountVerified
       && account.value.verifyOtp == otp && account.value.verifyOtpExpireAt < now)
    ensures VerifyOutcome(stId, otp, account, now) == EmailVerified <==>
      (stId != "" && otp != "" && account.Some? && !account.value.isAccountVerified
       && account.value.verifyOtp == otp && now <= account.value.verifyOtpExpireAt)
  {
  }

  /** The expiry test is strict: an OTP presented at the very millisecond it expires is accepted. */
  lemma VerifyAcceptedAtExpiry(stId: Id, s: OtpState)
    requires stId != "" && s.verifyOtp != "" && !s.isAccountVerified
    ensures VerifyOutcome(stId, s.verifyOtp, Some(s), s.verifyOtpExpireAt) == EmailVerified
    ensures VerifyOutcome(stId, s.verifyOtp, Some(s), s.verifyOtpExpireAt + 1) == OtpExpired
  {
  }

  /** After a successful verification every further attempt, with any OTP at any time, is "already verified". */
  lemma VerifyTwiceAlreadyVerified(stId: Id, otp: string, s: OtpState, now: int, otp2: string, now2: int)
    requires VerifyOutcome(stId, otp, Some(s), now) == EmailVerified
    requires otp2 != ""
    ensures VerifyOutcome(stId, otp2, Some(Otp.ConfirmVerified(s)), now2) == AccountAlreadyVerified
  {
  }

  /** A student who never requested an OTP (schema defaults) cannot be verified with any OTP. */
  lemma NewStudentCannotVerify(stId: Id, otp: string, password: string, now: int)
    ensures VerifyOutcome(stId, otp, Some(NewAccount(password)), now) != EmailVerified
  {
  }

  /** Requesting an OTP and presenting it within the day verifies an unverified student. */
  lemma SendThenVerify(stId: Id, s: OtpState, rand: real, now: int, later: int)
    requires 0.0 <= rand < 1.0
    requires stId != "" && !s.isAccountVerified
    requires now <= later <= now + Otp.DayMs
    ensures SendVerifyOutcome(stId, Some(s)) == VerifyOtpSent
    ensures VerifyOutcome(stId, Otp.GenerateOtp(rand),
                          Some(Otp.IssueVerifyOtp(s, Otp.GenerateOtp(rand), now)), later) == EmailVerified
  {
  }

  // ---------------------------------------------------------------- password reset

  function SendResetOutcome(email: string, account: Option<OtpState>): SendResetReply {
    if email == "" then EmailRequired
    else if account.None? then ResetStudentNotFound
    else ResetOtpSent
  }

  /** `stSendResetOtp`: `student` is the document found by email, or null. */
  method SendResetOtp(email: string, student: Student?, rand: real, now: int) returns (r: SendResetReply)
    requires 0.0 <= rand < 1.0
    requires student != null ==> student.email == email
    modifies student
    ensures r == SendResetOutcome(email, old(AccountOf(student)))
    ensures student != null ==> Rest(student) == old(Rest(student))
    ensures student != null ==>
              student.Otp() ==
              (if r == ResetOtpSent then Otp.IssueResetOtp(old(student.Otp()), Otp.GenerateOtp(rand), now)
               else old(student.Otp()))
  {
    if email == "" {
      return EmailRequired;
    }
    if student == null {
      return ResetStudentNotFound;
    }
    var otp := Otp.GenerateOtp(rand);
    student.resetOtp := otp;
    student.resetOtpExpireAt := now + Otp.FiveMinutesMs;
    r := ResetOtpSent;
  }

  /** The ordered guards of `stResetPassword`; an empty stored OTP is refused explicitly. */
  function ResetOutcome(email: string, otp: string, newPassword: string, account: Option<OtpState>,
                        now: int): ResetReply
  {
    if email == "" || otp == "" || newPassword == "" then ResetFieldsRequired
    else if account.None? then ResetNotFound
    else if account.value.resetOtp == "" || account.value.resetOtp != otp then ResetInvalidOtp
    else if account.value.resetOtpExpireAt < now then ResetOtpExpired
    else PasswordReset
  }

  /** `stResetPassword`: on success the password becomes the hash of the new one and the reset fields clear. */
  method ResetPassword(email: string, otp: string, newPassword: string, student: Student?, now: int,
                       hash: string -> string)
    returns (r: ResetReply)
    requires student != null ==> student.email == email
    modifies student
    ensures r == ResetOutcome(email, otp, newPassword, old(AccountOf(student)), now)
    ensures student != null ==> Rest(student) == old(Rest(student))
    ensures student != null ==>
              student.Otp() ==
              (if r == PasswordReset then Otp.ApplyReset(old(student.Otp()), hash(newPassword))
               else old(student.Otp()))
  {
    if email == "" || otp == "" || newPassword == "" {
      return ResetFieldsRequired;
    }
    if student == null {
      return ResetNotFound;
    }
    if student.resetOtp == "" || student.resetOtp != otp {
      return ResetInvalidOtp;
    }
    if student.resetOtpExpireAt < now {
      return ResetOtpExpired;
    }
    student.password := hash(newPassword);
    student.resetOtp := "";
    student.resetOtpExpireAt := 0;
    r := PasswordReset;
  }

  /** A reset succeeds exactly with the stored, non-empty, unexpired reset OTP. */
  lemma ResetSucceedsIff(email: string, otp: string, newPassword: string, account: Option<OtpState>, now: int)
    ensures ResetOutcome(email, otp, newPassword, account, now) == PasswordReset <==>
      (email != "" && otp != "" && newPassword != "" && account.Some?
       && account.value.resetOtp == otp && now <= account.value.resetOtpExpireAt)
  {
  }

  /** A reset OTP is single-use: replaying it after a successful reset is refused as invalid. */
  lemma ResetOtpSingleUse(email: string, otp: string, p1: string, p2: string, s: OtpState, now: int,
                          now2: int, hashed: string)
    requires ResetOutcome(email, otp, p1, Some(s), now) == PasswordReset
    requires p2 != ""
    ensures ResetOutcome(email, otp, p2, Some(Otp.ApplyReset(s, hashed)), now2) == ResetInvalidOtp
  {
  }

  /** An OTP requested now can be used up to five minutes later and no later. */
  lemma ResetWindowIsFiveMinutes(email: string, p: string, s: OtpState, rand: real, now: int, later: int)
    requires 0.0 <= rand < 1.0
    requires email != "" && p != ""
    ensures ResetOutcome(email, Otp.GenerateOtp(rand), p,
                         Some(Otp.IssueResetOtp(s, Otp.GenerateOtp(rand), now)), later) == PasswordReset
        <==> later <= now + 5 * 60 * 1000
  {
  }
}
