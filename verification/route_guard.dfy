/** The protected-route wrapper (`src/components/ProtectedRoute.tsx`): a pure
    decision from the provider's published state, the configuration status
    and the clock to a loading indicator, a redirect to the login page, or
    the protected children. */
module RouteGuard {
  import opened Js
  import opened Sessions
  import opened AuthStore

  datatype Decision = ShowLoading | Redirect(to: string, replace: bool) | Render

  const LoginPath: string := "/login"

  /** The decision ladder: loading first, then configuration, then presence
      of user and session, then validity of the session. */
  function Guard(loading: bool, configured: bool, user: Nullable<User>, session: Nullable<Session>, now: int): (d: Decision)
    ensures d == ShowLoading <==> loading
    ensures d == Render <==>
      !loading && configured && user.Some? && session.Some? && IsValidSession(session, now)
    ensures d.Redirect? ==> d.to == LoginPath && d.replace
  {
    if loading then ShowLoading
    else if !configured then Redirect(LoginPath, true)
    else if user.Null? || session.Null? then Redirect(LoginPath, true)
    else if !IsValidSession(session, now) then Redirect(LoginPath, true)
    else Render
  }

  /** The guard applied to the provider's state. */
  function GuardState(configured: bool, st: AuthState, now: int): Decision {
    Guard(st.loading, configured, st.user, st.session, now)
  }

  /** Every outcome other than loading and rendering is the replacing
      redirect to the login page. */
  lemma OtherwiseRedirect(loading: bool, configured: bool, user: Nullable<User>, session: Nullable<Session>, now: int)
    requires !loading
    requires !(configured && user.Some? && session.Some? && IsValidSession(session, now))
    ensures Guard(loading, configured, user, session, now) == Redirect(LoginPath, true)
  {
  }

  /** On a state the provider can reach, the user test is implied by the
      session test: the guard renders exactly when loading is over, the
      backend is configured and the held session is still valid now. */
  lemma GuardOnConsistentState(configured: bool, st: AuthState, now: int)
    requires Consistent(st)
    ensures GuardState(configured, st, now) == Render <==>
      !st.loading && configured && IsValidSession(st.session, now)
  {
  }

  /** Children render only for a session the backend delivered during the
      run, that was valid when delivered and is still valid now, and only
      when the backend is configured. */
  lemma RenderNeedsDeliveredSession(configured: bool, inputs: seq<Input>, now: int)
    requires GuardState(configured, Run(configured, Initial, inputs).state, now) == Render
    ensures configured
    ensures var s := Run(configured, Initial, inputs).state.session;
            s.Some? && IsValidSession(s, now) &&
            exists k :: 0 <= k < |inputs| && DeliversValid(inputs[k], s.value)
  {
    SessionProvenance(configured, Initial, inputs);
  }

  /** Before the first resolution nothing but the loading indicator shows. */
  lemma InitialShowsLoading(configured: bool, now: int)
    ensures GuardState(configured, Initial, now) == ShowLoading
  {
  }

  /** A protected page that renders at some instant keeps rendering at every
      earlier instant of the same state: expiry can only revoke access. */
  lemma RenderDecays(configured: bool, st: AuthState, earlier: int, later: int)
    requires earlier <= later
    requires GuardState(configured, st, later) == Render
    ensures GuardState(configured, st, earlier) == Render
  {
    ValidityDecays(st.session, earlier, later);
  }
}
