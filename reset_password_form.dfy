/**
 * client/src/components/auth/ResetPasswordForm.tsx: the reset form's checks. Decoding
 * the middle part of the token (`JSON.parse(atob(...))` and reading `exp`) is the
 * `decodeExp` parameter: `None` where decoding throws, `Some(None)` when there is
 * no `exp`.
 */
module ResetPasswordForm {
  import opened Wrappers
  import opened Strings
  import Seqs

  const MismatchMessage: string := "Passwords do not match"
  const TooShortMessage: string := "Password must be at least 6 characters long"

  datatype Submission = Invalid(message: string) | Dispatch(token: Option<string>, newPassword: string)

  /** `handleSubmit`: the mismatch check comes before the length check; only a valid form dispatches. */
  function HandleSubmit(token: Option<string>, newPassword: string, confirmPassword: string): (r: Submission)
    ensures newPassword != confirmPassword ==> r == Invalid(MismatchMessage)
    ensures newPassword == confirmPassword && |newPassword| < 6 ==> r == Invalid(TooShortMessage)
    ensures r.Dispatch? <==> newPassword == confirmPassword && |newPassword| >= 6
    ensures r.Dispatch? ==> r == Dispatch(token, newPassword)
  {
    if newPassword != confirmPassword then Invalid(MismatchMessage)
    else if |newPassword| < 6 then Invalid(TooShortMessage)
    else Dispatch(token, newPassword)
  }

  /** What the form does on load with the token from the route. */
  datatype TokenCheck = ToLogin | Expired | Proceed

  /** `exp` is used when present and not 0 (0 is falsy). */
  predicate ExpiredAt(exp: Option<int>, nowMs: int) {
    exp.Some? && exp.value != 0 && exp.value * 1000 < nowMs
  }

  /** The effect on load: no token goes to login; a three-part token whose `exp` has passed is flagged. */
  function CheckToken(token: Option<string>, decodeExp: string -> Option<Option<int>>, nowMs: int): (c: TokenCheck)
    ensures c == ToLogin <==> token.None? || token.value == ""
    ensures c == Expired <==>
      && token.Some? && token.value != ""
      && |Split(token.value, '.')| == 3
      && decodeExp(Split(token.value, '.')[1]).Some?
      && ExpiredAt(decodeExp(Split(token.value, '.')[1]).value, nowMs)
  {
    if token.None? || token.value == "" then ToLogin
    else
      var parts := Split(token.value, '.');
      if |parts| != 3 then Proceed
      else match decodeExp(parts[1])
        case None => Proceed
        case Some(exp) => if ExpiredAt(exp, nowMs) then Expired else Proceed
  }

  /** Only a token with exactly two dots can be flagged, whatever it decodes to. */
  lemma OnlyThreePartTokensExpire(token: string, decodeExp: string -> Option<Option<int>>, nowMs: int)
    requires |Seqs.Filter(token, IsChar('.'))| != 2
    ensures CheckToken(Some(token), decodeExp, nowMs) != Expired
  {
  }
}
