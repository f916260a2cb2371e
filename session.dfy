/**
  Reading the session cookie: `verifyUser` in days-off-create-read.js, the
  same steps inline in the api.js handler, and `verifyAdmin` in
  admin-approve-user.js.
 */
module Session {

  import opened Options
  import opened JsStrings
  import opened Domain
  import opened Http

  /** The claims of the session, or None (`null`) when there is no session
      token, the token is empty, or verifying it throws. */
  function VerifyUser(session: Option<JsString>, verify: JsString -> Option<Claims>): (r: Option<Claims>)
    ensures FalsyText(session) ==> r.None?
    ensures !FalsyText(session) ==> r == verify(session.value)
  {
    match session
    case None => None
    case Some(token) => if token == [] then None else verify(token)
  }

  /** `verifyAdmin`: false without a session token or when verifying it
      throws, and the token's `isAdmin` claim otherwise. */
  function VerifyAdmin(session: Option<JsString>, verify: JsString -> Option<Claims>): (r: bool)
    ensures r ==> !FalsyText(session)
    ensures r <==> !FalsyText(session) && verify(session.value).Some? && verify(session.value).value.isAdmin
  {
    var claims := VerifyUser(session, verify);
    claims.Some? && claims.value.isAdmin
  }
}
