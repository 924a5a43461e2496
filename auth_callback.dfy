/**
 * The auth callback route: the OAuth return (code exchange and redirect)
 * and the auth hook that mirrors a session event into the cookie session.
 */
module AuthCallback {
  import opened Wrappers
  import opened JsStrings
  import I18nRouting

  /** Where the callback sends the browser when no usable target is given. */
  const DefaultRedirect: string := "/" + I18nRouting.DefaultLocale

  /**
   * `redirectParam && redirectParam.startsWith("/") ? redirectParam : DEFAULT_REDIRECT`:
   * the given target when it is a non-empty path starting with a slash.
   */
  function RedirectTarget(redirectParam: Option<string>): (target: string)
    ensures StartsWith(target, "/")
    ensures redirectParam.Some? && StartsWith(redirectParam.value, "/") ==> target == redirectParam.value
    ensures !(redirectParam.Some? && StartsWith(redirectParam.value, "/")) ==> target == "/zh"
  {
    if redirectParam.Some? && redirectParam.value != "" && StartsWith(redirectParam.value, "/")
    then redirectParam.value
    else DefaultRedirect
  }

  /** A target the callback produced is accepted as it is when passed back in. */
  lemma RedirectTargetIdempotent(redirectParam: Option<string>)
    ensures RedirectTarget(Some(RedirectTarget(redirectParam))) == RedirectTarget(redirectParam)
  {
  }

  /**
   * The test looks at the first character only: a protocol-relative target
   * such as `//example.com/` is passed on as it is.
   */
  lemma RedirectTargetKeepsProtocolRelative()
    ensures RedirectTarget(Some("//example.com/")) == "//example.com/"
  {
    assert StartsWith("//example.com/", "/");
  }

  /** What the callback does: possibly exchange a code, then redirect. */
  datatype CallbackPlan = CallbackPlan(exchangeCode: Option<string>, redirectTo: string)

  /** `GET`: the code is exchanged for a session only when it is present and non-empty. */
  function HandleCallback(code: Option<string>, redirectParam: Option<string>): (plan: CallbackPlan)
    ensures plan.exchangeCode.Some? <==> code.Some? && code.value != ""
    ensures plan.exchangeCode.Some? ==> plan.exchangeCode == code
    ensures plan.redirectTo == RedirectTarget(redirectParam)
  {
    CallbackPlan(if code.Some? && code.value != "" then code else None, RedirectTarget(redirectParam))
  }

  /** The session call the hook makes for an event. */
  datatype SessionAction<S> = SetSession(session: S) | SignOut | NoAction

  /**
   * The switch on `payload.event`: sign-in and token refresh store the
   * payload's session when there is one; sign-out and user deletion sign
   * out; any other event does nothing.
   */
  function SyncAction<S>(event: string, session: Option<S>): (a: SessionAction<S>)
    ensures a.SetSession? <==> (event == "SIGNED_IN" || event == "TOKEN_REFRESHED") && session.Some?
    ensures a.SetSession? ==> a.session == session.value
    ensures a.SignOut? <==> event == "SIGNED_OUT" || event == "USER_DELETED"
  {
    match event
    case "SIGNED_IN" => if session.Some? then SetSession(session.value) else NoAction
    case "TOKEN_REFRESHED" => if session.Some? then SetSession(session.value) else NoAction
    case "SIGNED_OUT" => SignOut
    case "USER_DELETED" => SignOut
    case _ => NoAction
  }

  /** The hook's answer body. */
  const SyncedStatus: string := "synced"

  datatype HookReply<S> = HookReply(action: SessionAction<S>, status: string)

  /** `POST`: the event's session action, and the same `synced` answer whatever the event. */
  function HandleHook<S>(event: string, session: Option<S>): (reply: HookReply<S>)
    ensures reply.status == "synced"
    ensures reply.action == SyncAction(event, session)
  {
    HookReply(SyncAction(event, session), SyncedStatus)
  }
}
