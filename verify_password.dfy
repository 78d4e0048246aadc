/**
 * The access gate (src/app/api/verify-password/route.ts): the configured
 * password `AETHER_PASSWORD` against the one the browser submits.
 */
module VerifyPassword {
  import opened Wrappers

  /** The POST body: not parseable as a JSON object, or an object whose `password` may be absent. */
  datatype Submission = Unparsable | Submitted(password: Option<string>)

  /** The JSON reply: HTTP status, `success`, and the `error` text of the 500 reply. */
  datatype GateReply = GateReply(status: nat, success: bool, error: Option<string>)

  /** `GET`: protected exactly when a non-empty password is configured; an unset or empty one leaves the app open. */
  function IsPasswordProtected(configured: Option<string>): (r: bool)
    ensures r <==> configured.Some? && |configured.value| > 0
  {
    match configured
    case None => false
    case Some(p) => p != ""
  }

  /**
   * `POST`: the body is parsed first, so an unparseable body is a 500 even
   * when no password is set; then an open app admits anyone, and a protected
   * one admits exactly the configured password.
   */
  function Verify(configured: Option<string>, submission: Submission): (r: GateReply)
    ensures r.success <==>
      (submission.Submitted? && (!IsPasswordProtected(configured) || submission.password == configured))
    ensures r.status == 200 <==> r.success
    ensures r.status == 401 <==> submission.Submitted? && !r.success
    ensures r.status == 500 <==> submission.Unparsable?
    ensures r.error.Some? <==> r.status == 500
  {
    match submission
    case Unparsable => GateReply(500, false, Some("Internal Server Error"))
    case Submitted(password) =>
      if configured.None? || configured.value == "" then GateReply(200, true, None)
      else if password == Some(configured.value) then GateReply(200, true, None)
      else GateReply(401, false, None)
  }
}
