/** The password form of `frontend/pages/accept-invite.tsx`: the client copy
    of the password rule, the gate on the submit button and the order of the
    checks the submit handler makes before it sends anything. */
module AcceptInvitePage {
  import opened Common
  import opened Text
  import opened Passwords

  /** `isValidPassword` as the page writes it: the number of character
      classes present, counted one test at a time. */
  function ClientPasswordValid(pw: string): (ok: bool)
    ensures ok <==> PasswordRule(pw)
  {
    if Utf16Length(pw) < 8 then false
    else
      var types := (if HasLetter(pw) then 1 else 0) + (if HasDigit(pw) then 1 else 0) + (if HasOther(pw) then 1 else 0);
      types >= 2
  }

  /** `!!x` on the `token` query value and the `email` field. */
  predicate Present(s: Option<string>) { s.Some? && s.value != "" }

  /** `canSubmit`. */
  predicate CanSubmit(password: string, confirm: string, loading: bool, token: Option<string>, email: string) {
    ClientPasswordValid(password) && password == confirm && !loading && Present(token) && email != ""
  }

  /** What the submit handler does: the first failed check, or the request. */
  datatype SubmitOutcome = NoToken | BadPassword | Mismatch | Proceed

  /** The three checks of `handleSubmit`, token first, then the rule, then the
      confirmation; only when all pass is the request sent. */
  function SubmitGuard(token: Option<string>, password: string, confirm: string): (r: SubmitOutcome)
    ensures r == NoToken <==> !Present(token)
    ensures r == BadPassword <==> Present(token) && !PasswordRule(password)
    ensures r == Mismatch <==> Present(token) && PasswordRule(password) && password != confirm
    ensures r == Proceed <==> Present(token) && PasswordRule(password) && password == confirm
  {
    if !Present(token) then NoToken
    else if !ClientPasswordValid(password) then BadPassword
    else if password != confirm then Mismatch
    else Proceed
  }

  /** An enabled button always leads to the request. */
  lemma CanSubmitProceeds(password: string, confirm: string, loading: bool, token: Option<string>, email: string)
    requires CanSubmit(password, confirm, loading, token, email)
    ensures SubmitGuard(token, password, confirm) == Proceed
  {
  }

  /** A password shorter than eight code units, or of one class only, never
      gets past the page. */
  lemma WeakPasswordNeverSubmitted(password: string, confirm: string, loading: bool, token: Option<string>, email: string)
    requires Utf16Length(password) < 8
      || (forall i :: 0 <= i < |password| ==> IsAsciiLetter(password[i]))
      || (forall i :: 0 <= i < |password| ==> IsDigit(password[i]))
      || (forall i :: 0 <= i < |password| ==> IsOtherChar(password[i]))
    ensures !CanSubmit(password, confirm, loading, token, email)
    ensures SubmitGuard(token, password, confirm) != Proceed
  {
    if Utf16Length(password) >= 8 {
      SingleClassRefused(password);
    }
  }
}
