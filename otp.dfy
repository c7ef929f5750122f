/**
 * One-time passwords: how the controllers draw them and how they move the OTP fields of an
 * account (verification OTP valid for a day, reset OTP valid for five minutes).
 */
module Otp {
  import opened Models

  const DayMs: int := 24 * 60 * 60 * 1000
  const FiveMinutesMs: int := 5 * 60 * 1000

  /** `Math.floor(100000 + r * 900000)` where `r` is the value drawn by `Math.random()`. */
  function OtpNumber(r: real): (n: int)
    requires 0.0 <= r < 1.0
    ensures 100000 <= n <= 999999
  {
    (100000.0 + r * 900000.0).Floor
  }

  function Pow10(k: nat): nat {
    if k == 0 then 1 else 10 * Pow10(k - 1)
  }

  function Digit(d: nat): (c: char)
    requires d < 10
    ensures '0' <= c <= '9'
  {
    "0123456789"[d]
  }

  function DigitValue(c: char): nat
    requires '0' <= c <= '9'
  {
    (c as int - '0' as int) as nat
  }

  /** `n.toString()` for a non-negative integer: its decimal digits, most significant first. */
  function DecimalString(n: nat): (s: string)
    ensures |s| >= 1
    ensures forall i :: 0 <= i < |s| ==> '0' <= s[i] <= '9'
    decreases n
  {
    if n < 10 then [Digit(n)] else DecimalString(n / 10) + [Digit(n % 10)]
  }

  /** The number a string of decimal digits denotes. */
  function DecimalValue(s: string): nat
    requires forall i :: 0 <= i < |s| ==> '0' <= s[i] <= '9'
  {
    if s == [] then 0 else 10 * DecimalValue(s[..|s| - 1]) + DigitValue(s[|s| - 1])
  }

  /** Reading the digits back gives the number: the OTP string denotes the drawn number. */
  lemma {:induction false} DecimalRoundTrip(n: nat)
    ensures DecimalValue(DecimalString(n)) == n
    decreases n
  {
    var s := DecimalString(n);
    if n < 10 {
      assert "0123456789"[n] as int - '0' as int == n;
    } else {
      DecimalRoundTrip(n / 10);
      assert s[..|s| - 1] == DecimalString(n / 10);
      assert "0123456789"[n % 10] as int - '0' as int == n % 10;
    }
  }

  /** A number with k digits has a k-character decimal string. */
  lemma {:induction false} DecimalLength(n: nat, k: nat)
    requires 1 <= k && Pow10(k - 1) <= n < Pow10(k)
    ensures |DecimalString(n)| == k
    decreases k
  {
    if k > 1 {
      assert Pow10(k - 1) == 10 * Pow10(k - 2);
      assert Pow10(k) == 10 * Pow10(k - 1);
      assert n >= 10 by { Pow10Positive(k - 2); }
      DecimalLength(n / 10, k - 1);
    }
  }

  lemma {:induction false} Pow10Positive(k: nat)
    ensures Pow10(k) >= 1
  {
    if k > 0 { Pow10Positive(k - 1); }
  }

  /** The OTP string sent and stored: six decimal digits denoting a number in [100000, 999999]. */
  function GenerateOtp(r: real): (otp: string)
    requires 0.0 <= r < 1.0
    ensures |otp| == 6
    ensures forall i :: 0 <= i < |otp| ==> '0' <= otp[i] <= '9'
    ensures 100000 <= DecimalValue(otp) <= 999999
  {
    var n := OtpNumber(r);
    assert Pow10(5) == 100000 && Pow10(6) == 1000000;
    DecimalLength(n, 6);
    DecimalRoundTrip(n);
    DecimalString(n)
  }

  /** `verifyOtp = otp; verifyOtpExpireAt = now + 24h`. */
  function IssueVerifyOtp(s: OtpState, otp: string, now: int): OtpState {
    s.(verifyOtp := otp, verifyOtpExpireAt := now + DayMs)
  }

  /** `isAccountVerified = true; verifyOtp = ""; verifyOtpExpireAt = 0`. */
  function ConfirmVerified(s: OtpState): OtpState {
    s.(isAccountVerified := true, verifyOtp := "", verifyOtpExpireAt := 0)
  }

  /** `resetOtp = otp; resetOtpExpireAt = now + 5min`. */
  function IssueResetOtp(s: OtpState, otp: string, now: int): OtpState {
    s.(resetOtp := otp, resetOtpExpireAt := now + FiveMinutesMs)
  }

  /** `password = hashed; resetOtp = ""; resetOtpExpireAt = 0`. */
  function ApplyReset(s: OtpState, hashed: string): OtpState {
    s.(password := hashed, resetOtp := "", resetOtpExpireAt := 0)
  }

  /** Issuing a verification OTP touches only the two verification fields, and the OTP stays valid for a day. */
  lemma IssueVerifyOtpFrame(s: OtpState, otp: string, now: int)
    ensures IssueVerifyOtp(s, otp, now).verifyOtp == otp
    ensures !(IssueVerifyOtp(s, otp, now).verifyOtpExpireAt < now + DayMs)
    ensures IssueVerifyOtp(s, otp, now).(verifyOtp := s.verifyOtp, verifyOtpExpireAt := s.verifyOtpExpireAt) == s
  {
  }

  /** A reset OTP touches only the two reset fields; the verification state is left alone. */
  lemma IssueResetOtpFrame(s: OtpState, otp: string, now: int)
    ensures IssueResetOtp(s, otp, now).resetOtp == otp
    ensures IssueResetOtp(s, otp, now).resetOtpExpireAt == now + 300000
    ensures IssueResetOtp(s, otp, now).(resetOtp := s.resetOtp, resetOtpExpireAt := s.resetOtpExpireAt) == s
  {
  }
}
