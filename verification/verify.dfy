/**
 * The e-mail verification page (`Verify`): what it does with the token in
 * its URL, and the request for a new token with its e-mail check.
 */
module Verify {
  import opened Common
  import opened EmailFormat

  // ------------------------------------------------------------- the token

  /** What the page shows once its effect has run: the preloader, the
      resend dialog, whether a verification was requested, and whether it is
      on its way back to the login page. */
  datatype VerifyView = VerifyView(loading: bool, showModal: bool, verifying: bool, redirecting: bool)

  /** The view before the effect has run. */
  const Initial := VerifyView(true, false, false, false)

  /** The effect on mount: without a token (missing or empty) the preloader
      goes, the resend dialog opens, and nothing is verified. With a token
      it is verified (the random delay before is left out): `verified` says
      whether the server accepted it; acceptance sends the page back to the
      login page, refusal opens the dialog; the preloader goes either way. */
  function OnMount(token: Option<string>, verified: bool): (r: VerifyView)
    ensures !Truthy(token) ==> r == VerifyView(false, true, false, false)
    ensures !r.loading
    ensures r.verifying <==> Truthy(token)
    ensures r.redirecting <==> Truthy(token) && verified
  {
    if !Truthy(token) then Initial.(loading := false, showModal := true)
    else if verified then VerifyView(false, false, true, true)
    else VerifyView(false, true, true, false)
  }

  /** Once the effect has run the page does exactly one thing: it either
      goes back to the login page or offers to send a new token. */
  lemma ModalOrRedirect(token: Option<string>, verified: bool)
    ensures OnMount(token, verified).showModal != OnMount(token, verified).redirecting
  {
  }

  // ------------------------------------------------------- a new token

  const EmailRequired := "Email is required"
  const InvalidEmail := "Invalid email format"

  /** The resend dialog: the typed e-mail, the message under it, and whether
      a request is in flight. */
  datatype ResendState = ResendState(email: string, emailError: string, inFlight: bool)

  /** The dialog after a click, and the address a new token was asked for. */
  datatype ResendStep = ResendStep(state: ResendState, sent: Option<string>)

  /** `validateEmail`: the loose e-mail pattern. */
  method ValidateEmail(email: string) returns (ok: bool)
    ensures ok <==> LooseEmail(email)
  {
    ok := CheckLooseEmail(email);
  }

  /** `handleRequestNewToken`, run to completion: ignored while a request is
      in flight; an empty address is reported as missing and a malformed one
      as malformed, in that order, and neither is sent; a well-formed one
      clears the message and is sent, and the flag is clear at the end. */
  method RequestNewToken(st: ResendState) returns (r: ResendStep)
    ensures st.inFlight ==> r == ResendStep(st, None)
    ensures r.sent.Some? <==> !st.inFlight && LooseEmail(st.email)
    ensures r.sent.Some? ==> r == ResendStep(st.(emailError := ""), Some(st.email))
    ensures !st.inFlight && st.email == "" ==> r == ResendStep(st.(emailError := EmailRequired), None)
    ensures !st.inFlight && st.email != "" && !LooseEmail(st.email) ==>
              r == ResendStep(st.(emailError := InvalidEmail), None)
  {
    if st.inFlight {
      return ResendStep(st, None);
    }
    if st.email == "" {
      return ResendStep(st.(emailError := EmailRequired), None);
    }
    var ok := ValidateEmail(st.email);
    if !ok {
      return ResendStep(st.(emailError := InvalidEmail), None);
    }
    r := ResendStep(st.(emailError := ""), Some(st.email));
  }
}
