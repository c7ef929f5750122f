/**
 * Mentor account handlers (server/controllers/mentorAuthController.js). They follow the
 * student handlers with three differences: registration also needs `expertise`, sending a
 * verification OTP looks the mentor up without first checking the id, and verification has no
 * "already verified" guard.
 */
module MentorAuth {
  import opened Common
  import opened Models
  import Otp
  import StudentAuth

  datatype RegisterReply = AllFieldsRequired | MentorExists | MentorRegistered
  datatype SendVerifyReply = SendMentorNotFound | AlreadyVerified | VerifyOtpSent
  datatype VerifyReply = VerifyFieldsRequired | VerifyMentorNotFound | InvalidOtp | OtpExpired
                       | EmailVerified
  datatype SendResetReply = EmailRequired | ResetMentorNotFound | ResetOtpSent
  datatype ResetReply = ResetFieldsRequired | ResetMentorMissing | ResetInvalidOtp | ResetOtpExpired
                      | PasswordReset

  function AccountOf(m: Mentor?): Option<OtpState>
    reads m
  {
    if m == null then None else Some(m.Otp())
  }

  /** Everything of a mentor document besides the OTP fields. */
  function Rest(m: Mentor): (string, string, string, seq<Id>, seq<Id>)
    reads m
  {
    (m.name, m.email, m.expertise, m.courses, m.students)
  }

  /** `mentorRegister`: all four fields, then a free email; otherwise a new document. */
  method Register(name: string, email: string, password: string, expertise: string, emailTaken: bool,
                  newId: Id, hash: string -> string)
    returns (r: RegisterReply, mentor: Mentor?)
    ensures r == AllFieldsRequired <==> (name == "" || email == "" || password == "" || expertise == "")
    ensures r == MentorExists <==>
      (name != "" && email != "" && password != "" && expertise != "" && emailTaken)
    ensures r != MentorRegistered ==> mentor == null
    ensures r == MentorRegistered ==>
              && mentor != null && fresh(mentor) && mentor.id == newId
              && mentor.name == name && mentor.email == email && mentor.expertise == expertise
              && mentor.Otp() == NewAccount(hash(password))
              && mentor.courses == [] && mentor.students == []
  {
    if name == "" || email == "" || password == "" || expertise == "" {
      return AllFieldsRequired, null;
    }
    if emailTaken {
      return MentorExists, null;
    }
    mentor := new Mentor(newId, name, email, hash(password), expertise);
    r := MentorRegistered;
  }

  /** `mentorLogin` has the same three guards, in the same order, as the student login. */
  function Login(email: string, password: string, storedHash: Option<string>,
                 compare: (string, string) -> bool): (r: StudentAuth.LoginReply)
    ensures r == StudentAuth.Login(email, password, storedHash, compare)
  {
    if email == "" || password == "" then StudentAuth.LoginFillAllFields
    else if storedHash.None? then StudentAuth.InvalidEmail
    else if !compare(password, storedHash.value) then StudentAuth.InvalidPassword
    else StudentAuth.LoggedIn
  }

  function SendVerifyOutcome(account: Option<OtpState>): SendVerifyReply {
    if account.None? then SendMentorNotFound
    else if account.value.isAccountVerified then AlreadyVerified
    else VerifyOtpSent
  }

  /** `mentorSendVerifyOtp`: an unknown or verified mentor is refused; otherwise a day-long OTP is stored. */
  method SendVerifyOtp(mentorId: Id, mentor: Mentor?, rand: real, now: int) returns (r: SendVerifyReply)
    requires 0.0 <= rand < 1.0
    requires mentor != null ==> mentor.id == mentorId
    modifies mentor
    ensures r == SendVerifyOutcome(old(AccountOf(mentor)))
    ensures mentor != null ==> Rest(mentor) == old(Rest(mentor))
    ensures mentor != null ==>
              mentor.Otp() ==
              (if r == VerifyOtpSent then Otp.IssueVerifyOtp(old(mentor.Otp()), Otp.GenerateOtp(rand), now)
               else old(mentor.Otp()))
  {
    if mentor == null {
      return SendMentorNotFound;
    }
    if mentor.isAccountVerified {
      return AlreadyVerified;
    }
    var otp := Otp.GenerateOtp(rand);
    mentor.verifyOtp := otp;
    mentor.verifyOtpExpireAt := now + Otp.DayMs;
    r := VerifyOtpSent;
  }

  /** The ordered guards of `mentorVerifyAccount`: fields, lookup, OTP match, expiry. */
  function VerifyOutcome(mentorId: Id, otp: string, account: Option<OtpState>, now: int): VerifyReply {
    if mentorId == "" || otp == "" then VerifyFieldsRequired
    else if account.None? then VerifyMentorNotFound
    else if account.value.verifyOtp != otp then InvalidOtp
    else if account.value.verifyOtpExpireAt < now then OtpExpired
    else EmailVerified
  }

  method VerifyAccount(mentorId: Id, otp: string, mentor: Mentor?, now: int) returns (r: VerifyReply)
    requires mentor != null ==> mentor.id == mentorId
    modifies mentor
    ensures r == VerifyOutcome(mentorId, otp, old(AccountOf(mentor)), now)
    ensures mentor != null ==> Rest(mentor) == old(Rest(mentor))
    ensures mentor != null ==>
              mentor.Otp() ==
              (if r == EmailVerified then Otp.ConfirmVerified(old(mentor.Otp())) else old(mentor.Otp()))
  {
    if mentorId == "" || otp == "" {
      return VerifyFieldsRequired;
    }
    if mentor == null {
      return VerifyMentorNotFound;
    }
    if mentor.verifyOtp != otp {
      return InvalidOtp;
    }
    if mentor.verifyOtpExpireAt < now {
      return OtpExpired;
    }
    mentor.isAccountVerified := true;
    mentor.verifyOtp := "";
    mentor.verifyOtpExpireAt := 0;
    r := EmailVerified;
  }

  /** Verification succeeds exactly with the stored OTP before it expires; the verified flag plays no part. */
  lemma VerifySucceedsIff(mentorId: Id, otp: string, account: Option<OtpState>, now: int)
    ensures VerifyOutcome(mentorId, otp, account, now) == EmailVerified <==>
      (mentorId != "" && otp != "" && account.Some? && account.value.verifyOtp == otp
       && now <= account.value.verifyOtpExpireAt)
    ensures account.Some? ==>
      VerifyOutcome(mentorId, otp, account, now) ==
      VerifyOutcome(mentorId, otp, Some(account.value.(isAccountVerified := !account.value.isAccountVerified)), now)
  {
  }

  /** A repeated verification is refused as "Invalid OTP": the stored OTP is now "" and "" is never accepted. */
  lemma VerifyTwiceInvalidOtp(mentorId: Id, otp: string, s: OtpState, now: int, otp2: string, now2: int)
    requires VerifyOutcome(mentorId, otp, Some(s), now) == EmailVerified
    requires otp2 != ""
    ensures VerifyOutcome(mentorId, otp2, Some(Otp.ConfirmVerified(s)), now2) == InvalidOtp
  {
  }

  function SendResetOutcome(email: string, account: Option<OtpState>): SendResetReply {
    if email == "" then EmailRequired
    else if account.None? then ResetMentorNotFound
    else ResetOtpSent
  }

  /** `mentorSendResetOtp`: a five-minute reset OTP for the mentor found by email. */
  method SendResetOtp(email: string, mentor: Mentor?, rand: real, now: int) returns (r: SendResetReply)
    requires 0.0 <= rand < 1.0
    requires mentor != null ==> mentor.email == email
    modifies mentor
    ensures r == SendResetOutcome(email, old(AccountOf(mentor)))
    ensures mentor != null ==> Rest(mentor) == old(Rest(mentor))
    ensures mentor != null ==>
              mentor.Otp() ==
              (if r == ResetOtpSent then Otp.IssueResetOtp(old(mentor.Otp()), Otp.GenerateOtp(rand), now)
               else old(mentor.Otp()))
  {
    if email == "" {
      return EmailRequired;
    }
    if mentor == null {
      return ResetMentorNotFound;
    }
    var otp := Otp.GenerateOtp(rand);
    mentor.resetOtp := otp;
    mentor.resetOtpExpireAt := now + Otp.FiveMinutesMs;
    r := ResetOtpSent;
  }

  /** The ordered guards of `mentorResetPassword` (no separate test for an empty stored OTP). */
  function ResetOutcome(email: string, otp: string, newPassword: string, account: Option<OtpState>,
                        now: int): ResetReply
  {
    if email == "" || otp == "" || newPassword == "" then ResetFieldsRequired
    else if account.None? then ResetMentorMissing
    else if account.value.resetOtp != otp then ResetInvalidOtp
    else if account.value.resetOtpExpireAt < now then ResetOtpExpired
    else PasswordReset
  }

  method ResetPassword(email: string, otp: string, newPassword: string, mentor: Mentor?, now: int,
                       hash: string -> string)
    returns (r: ResetReply)
    requires mentor != null ==> mentor.email == email
    modifies mentor
    ensures r == ResetOutcome(email, otp, newPassword, old(AccountOf(mentor)), now)
    ensures mentor != null ==> Rest(mentor) == old(Rest(mentor))
    ensures mentor != null ==>
              mentor.Otp() ==
              (if r == PasswordReset then Otp.ApplyReset(old(mentor.Otp()), hash(newPassword))
               else old(mentor.Otp()))
  {
    if email == "" || otp == "" || newPassword == "" {
      return ResetFieldsRequired;
    }
    if mentor == null {
      return ResetMentorMissing;
    }
    if mentor.resetOtp != otp {
      return ResetInvalidOtp;
    }
    if mentor.resetOtpExpireAt < now {
      return ResetOtpExpired;
    }
    mentor.password := hash(newPassword);
    mentor.resetOtp := "";
    mentor.resetOtpExpireAt := 0;
    r := PasswordReset;
  }

  /**
   * The mentor reset omits the student's `resetOtp === ""` test, yet both decide alike: the
   * presented OTP is never empty once the field check has passed.
   */
  lemma ResetAgreesWithStudent(email: string, otp: string, newPassword: string, account: Option<OtpState>,
                               now: int)
    ensures (ResetOutcome(email, otp, newPassword, account, now) == PasswordReset) ==
      (StudentAuth.ResetOutcome(email, otp, newPassword, account, now) == StudentAuth.PasswordReset)
    ensures (ResetOutcome(email, otp, newPassword, account, now) == ResetInvalidOtp) ==
      (StudentAuth.ResetOutcome(email, otp, newPassword, account, now) == StudentAuth.ResetInvalidOtp)
    ensures (ResetOutcome(email, otp, newPassword, account, now) == ResetOtpExpired) ==
      (StudentAuth.ResetOutcome(email, otp, newPassword, account, now) == StudentAuth.ResetOtpExpired)
  {
  }

  /** A reset OTP cannot be replayed after a successful reset. */
  lemma ResetOtpSingleUse(email: string, otp: string, p1: string, p2: string, s: OtpState, now: int,
                          now2: int, hashed: string)
    requires ResetOutcome(email, otp, p1, Some(s), now) == PasswordReset
    requires p2 != ""
    ensures ResetOutcome(email, otp, p2, Some(Otp.ApplyReset(s, hashed)), now2) == ResetInvalidOtp
  {
  }
}
