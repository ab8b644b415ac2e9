/** The auth provider (`src/contexts/AuthContext.tsx`) as a state machine.
    The state is `(user, session, loading)`. Backend answers and pushed
    auth-change notifications arrive as events, each with the clock reading
    at which it is handled; the backend calls the provider issues are
    returned as commands. Events are applied one after another and the last
    write wins: the model does not interleave them. */
module AuthStore {
  import opened Js
  import opened Sessions

  datatype AuthState = AuthState(user: Nullable<User>, session: Nullable<Session>, loading: bool)

  /** The state before the first resolution. */
  const Initial: AuthState := AuthState(Null, Null, true)

  /** Resolved with nobody signed in. */
  const SignedOut: AuthState := AuthState(Null, Null, false)

  /** Session and user are both absent, or the user is the session's own
      (present) user. */
  predicate Consistent(st: AuthState) {
    || (st.session.Null? && st.user.Null?)
    || (st.session.Some? && st.user.Some? && st.user == st.session.value.user)
  }

  datatype AuthError = AuthError(message: string)

  /** What `signIn` reports when the backend is not configured. */
  const NotConfiguredError: AuthError := AuthError("Supabase is not configured")

  /** The answer to the initial session request. */
  datatype FetchResult = FetchFailed(error: AuthError) | Fetched(session: Nullable<Session>)

  datatype Event =
    | Mount                                      // the provider's effect runs
    | SessionFetched(result: FetchResult)        // the initial request resolves
    | AuthChanged(session: Nullable<Session>)    // a pushed auth-change notification
    | SignInRequested(email: string, password: string)
    | SignOutRequested
    | Unmount                                    // the effect's cleanup runs

  datatype Input = Input(event: Event, now: int)

  /** Calls into the backend client. `PurgeSession` is the fire-and-forget
      sign-out whose failure is ignored; `SignOut` is the awaited one. */
  datatype Command =
    | GetSession
    | Subscribe
    | Unsubscribe
    | PurgeSession
    | SignInWithPassword(email: string, password: string)
    | SignOut

  datatype Step = Step(state: AuthState, commands: seq<Command>)

  /** The events that assign the state. */
  predicate Writes(configured: bool, ev: Event) {
    ev.SessionFetched? || ev.AuthChanged? || (ev.Mount? && !configured)
  }

  /** The events the backend delivers (they only arrive once the provider
      asked for them). */
  predicate FromBackend(ev: Event) {
    ev.SessionFetched? || ev.AuthChanged?
  }

  /** Validate, then publish: the valid session and its user, or nobody.
      Either way loading is over. */
  function Publish(session: Nullable<Session>, now: int): (st: AuthState)
    ensures !st.loading && Consistent(st)
    ensures st.session.Some? <==> IsValidSession(session, now)
    ensures st.session.Some? ==> st.session == session
  {
    if IsValidSession(session, now) then AuthState(session.value.user, session, false)
    else SignedOut
  }

  /** One event handled by the provider. */
  function Next(configured: bool, st: AuthState, input: Input): (r: Step)
    ensures Consistent(st) ==> Consistent(r.state)
    ensures !st.loading ==> !r.state.loading
    ensures FromBackend(input.event) ==> !r.state.loading
    ensures !Writes(configured, input.event) ==> r.state == st
    ensures input.event.AuthChanged? ==> r.state == Publish(input.event.session, input.now)
    ensures input.event.SessionFetched? && input.event.result.Fetched? ==>
      r.state == Publish(input.event.result.session, input.now)
    ensures (input.event.SessionFetched? && input.event.result.FetchFailed?) || (input.event.Mount? && !configured) ==>
      r.state == SignedOut
    ensures !configured && !FromBackend(input.event) ==> r.commands == []
    ensures configured && input.event.SignInRequested? ==>
      r.commands == [SignInWithPassword(input.event.email, input.event.password)]
    ensures configured && input.event.SignOutRequested? ==> r.commands == [SignOut]
    ensures configured && input.event.Unmount? ==> r.commands == [Unsubscribe]
    ensures FromBackend(input.event) ==> r.commands == [] || r.commands == [PurgeSession]
    ensures PurgeSession in r.commands <==>
      input.event.SessionFetched? && input.event.result.Fetched? &&
      input.event.result.session.Some? && !IsValidSession(input.event.result.session, input.now)
  {
    match input.event
    case Mount =>
      if configured then Step(st, [GetSession, Subscribe]) else Step(SignedOut, [])
    case SessionFetched(FetchFailed(_)) =>
      Step(SignedOut, [])
    case SessionFetched(Fetched(session)) =>
      var purge := if !IsValidSession(session, input.now) && session.Some? then [PurgeSession] else [];
      Step(Publish(session, input.now), purge)
    case AuthChanged(session) =>
      Step(Publish(session, input.now), [])
    case SignInRequested(email, password) =>
      Step(st, if configured then [SignInWithPassword(email, password)] else [])
    case SignOutRequested =>
      Step(st, if configured then [SignOut] else [])
    case Unmount =>
      Step(st, if configured then [Unsubscribe] else [])
  }

  /** What `signIn` resolves to, given the backend's answer when it is
      asked. */
  function SignInReply(configured: bool, backendError: Nullable<AuthError>): (reply: Nullable<AuthError>)
    ensures !configured ==> reply == Some(NotConfiguredError)
    ensures configured ==> reply == backendError
  {
    if !configured then Some(NotConfiguredError) else backendError
  }

  /** Events handled in order; the commands are collected in issue order. */
  function Run(configured: bool, st: AuthState, inputs: seq<Input>): Step
    decreases |inputs|
  {
    if |inputs| == 0 then Step(st, [])
    else
      var first := Next(configured, st, inputs[0]);
      var rest := Run(configured, first.state, inputs[1..]);
      Step(rest.state, first.commands + rest.commands)
  }

  // -----------------------------------------------------------------------
  // Properties of single events

  /** A writing event's outcome does not depend on the state it meets. */
  lemma WriteForgetsPriorState(configured: bool, st1: AuthState, st2: AuthState, input: Input)
    requires Writes(configured, input.event)
    ensures Next(configured, st1, input) == Next(configured, st2, input)
  {
  }

  /** Sign-in and sign-out requests never touch user, session or loading;
      when not configured they issue nothing and sign-in reports the
      not-configured error. */
  lemma SignInAndOutNeverWrite(configured: bool, st: AuthState, email: string, password: string, now: int)
    ensures Next(configured, st, Input(SignInRequested(email, password), now)).state == st
    ensures Next(configured, st, Input(SignOutRequested, now)).state == st
    ensures !configured ==> Next(configured, st, Input(SignInRequested(email, password), now)).commands == []
    ensures !configured ==> Next(configured, st, Input(SignOutRequested, now)).commands == []
    ensures !configured ==> SignInReply(configured, Null) == Some(NotConfiguredError)
  {
  }

  /** An unconfigured mount clears the state at once and asks the backend
      nothing; a configured mount asks for the session and subscribes. */
  lemma MountOutcome(st: AuthState, now: int)
    ensures Next(false, st, Input(Mount, now)) == Step(SignedOut, [])
    ensures Next(true, st, Input(Mount, now)) == Step(st, [GetSession, Subscribe])
  {
  }

  // -----------------------------------------------------------------------
  // Properties of runs

  /** Running two stretches of events one after the other. */
  lemma {:induction false} RunAppendState(configured: bool, st: AuthState, a: seq<Input>, b: seq<Input>)
    ensures Run(configured, st, a + b).state == Run(configured, Run(configured, st, a).state, b).state
    decreases |a|
  {
    if |a| == 0 {
      assert a + b == b;
    } else {
      var next := Next(configured, st, a[0]).state;
      assert (a + b)[0] == a[0];
      assert (a + b)[1..] == a[1..] + b;
      RunAppendState(configured, next, a[1..], b);
    }
  }

  /** Every run keeps session and user in step. */
  lemma {:induction false} RunKeepsConsistent(configured: bool, st: AuthState, inputs: seq<Input>)
    requires Consistent(st)
    ensures Consistent(Run(configured, st, inputs).state)
    decreases |inputs|
  {
    if |inputs| > 0 {
      RunKeepsConsistent(configured, Next(configured, st, inputs[0]).state, inputs[1..]);
    }
  }

  /** Loading never comes back once it is over, and it is over after any
      backend delivery. */
  lemma {:induction false} LoadingSettles(configured: bool, st: AuthState, inputs: seq<Input>)
    requires !st.loading || exists k :: 0 <= k < |inputs| && FromBackend(inputs[k].event)
    ensures !Run(configured, st, inputs).state.loading
    decreases |inputs|
  {
    if |inputs| > 0 {
      var next := Next(configured, st, inputs[0]).state;
      if !next.loading {
        LoadingSettles(configured, next, inputs[1..]);
      } else {
        var k :| 0 <= k < |inputs| && FromBackend(inputs[k].event);
        assert k != 0;
        assert FromBackend(inputs[1..][k - 1].event);
        LoadingSettles(configured, next, inputs[1..]);
      }
    }
  }

  /** Events that do not write leave the state as it is. */
  lemma {:induction false} NonWritingKeepsState(configured: bool, st: AuthState, inputs: seq<Input>)
    requires forall k :: 0 <= k < |inputs| ==> !Writes(configured, inputs[k].event)
    ensures Run(configured, st, inputs).state == st
    decreases |inputs|
  {
    if |inputs| > 0 {
      NonWritingKeepsState(configured, st, inputs[1..]);
    }
  }

  /** Last write wins: the state after a run is what its last writing event
      published, whatever came before it. */
  lemma LastWriteWins(configured: bool, st: AuthState, before: seq<Input>, last: Input, after: seq<Input>)
    requires Writes(configured, last.event)
    requires forall k :: 0 <= k < |after| ==> !Writes(configured, after[k].event)
    ensures Run(configured, st, before + [last] + after).state == Next(configured, Initial, last).state
  {
    RunAppendState(configured, st, before + [last], after);
    RunAppendState(configured, st, before, [last]);
    var mid := Run(configured, st, before).state;
    WriteForgetsPriorState(configured, mid, Initial, last);
    NonWritingKeepsState(configured, Run(configured, st, before + [last]).state, after);
  }

  /** The session a writing event hands to validation: the delivered one,
      or none for a failed request and for an unconfigured mount. */
  function Delivered(ev: Event): Nullable<Session> {
    match ev
    case AuthChanged(session) => session
    case SessionFetched(Fetched(session)) => session
    case _ => Null
  }

  /** After a run, the provider shows what validation made of the session
      the last writing event delivered, judged at the time that event was
      handled. */
  lemma FinalStateIsLastPublished(configured: bool, st: AuthState, before: seq<Input>, last: Input, after: seq<Input>)
    requires Writes(configured, last.event)
    requires forall k :: 0 <= k < |after| ==> !Writes(configured, after[k].event)
    ensures Run(configured, st, before + [last] + after).state == Publish(Delivered(last.event), last.now)
  {
    LastWriteWins(configured, st, before, last, after);
  }

  /** When the last writing event delivered session `s`, the provider ends
      up holding `s`, with its user, exactly when `s` was valid as that event
      was handled; otherwise it ends up signed out. */
  lemma LastDeliveryDecides(configured: bool, st: AuthState, before: seq<Input>, last: Input, after: seq<Input>, s: Session)
    requires last.event == AuthChanged(Some(s)) || last.event == SessionFetched(Fetched(Some(s)))
    requires forall k :: 0 <= k < |after| ==> !Writes(configured, after[k].event)
    ensures var fin := Run(configured, st, before + [last] + after).state;
      && (fin.session == Some(s) <==> IsValidSession(Some(s), last.now))
      && (fin.session == Some(s) ==> fin.user == s.user && !fin.loading)
      && (fin.session != Some(s) ==> fin == SignedOut)
  {
    FinalStateIsLastPublished(configured, st, before, last, after);
  }

  /** With the backend unconfigured, the events the page itself can produce
      (mount, sign-in, sign-out, unmount) never reach the backend, and once
      mounted the provider shows nobody signed in and is not loading. */
  lemma {:induction false} UnconfiguredIsInert(st: AuthState, inputs: seq<Input>)
    requires st == Initial || st == SignedOut
    requires forall k :: 0 <= k < |inputs| ==> !FromBackend(inputs[k].event)
    ensures Run(false, st, inputs).commands == []
    ensures Run(false, st, inputs).state == Initial || Run(false, st, inputs).state == SignedOut
    ensures (st == SignedOut || exists k :: 0 <= k < |inputs| && inputs[k].event.Mount?) ==>
              Run(false, st, inputs).state == SignedOut
    decreases |inputs|
  {
    if |inputs| > 0 {
      var next := Next(false, st, inputs[0]).state;
      UnconfiguredIsInert(next, inputs[1..]);
      if exists k :: 0 <= k < |inputs| && inputs[k].event.Mount? {
        var k :| 0 <= k < |inputs| && inputs[k].event.Mount?;
        if k > 0 {
          assert inputs[1..][k - 1].event.Mount?;
        }
      }
    }
  }

  /** The input delivered session `s` from the backend, and `s` was valid
      when it was handled. */
  predicate DeliversValid(input: Input, s: Session) {
    && (|| (input.event.AuthChanged? && input.event.session == Some(s))
        || (input.event.SessionFetched? && input.event.result == Fetched(Some(s))))
    && IsValidSession(Some(s), input.now)
  }

  /** Every session the provider holds was delivered by the backend during
      the run and was valid when delivered (or was already held before). */
  lemma {:induction false} SessionProvenance(configured: bool, st: AuthState, inputs: seq<Input>)
    ensures var fin := Run(configured, st, inputs).state;
            fin.session.Some? ==>
              fin.session == st.session ||
              exists k :: 0 <= k < |inputs| && DeliversValid(inputs[k], fin.session.value)
    decreases |inputs|
  {
    if |inputs| > 0 {
      var next := Next(configured, st, inputs[0]).state;
      SessionProvenance(configured, next, inputs[1..]);
      var fin := Run(configured, st, inputs).state;
      assert fin == Run(configured, next, inputs[1..]).state;
      if fin.session.Some? && fin.session != st.session {
        if fin.session == next.session {
          assert DeliversValid(inputs[0], fin.session.value);
        } else {
          var k :| 0 <= k < |inputs[1..]| && DeliversValid(inputs[1..][k], fin.session.value);
          assert DeliversValid(inputs[k + 1], fin.session.value);
        }
      }
    }
  }

  // -----------------------------------------------------------------------
  // Scenarios

  /** A session that expired ten seconds ago comes back from the initial
      request: nobody is signed in, loading is over, and the stale session is
      purged. */
  lemma ExpiredFetchedSessionIsPurged(s: Session, now: int)
    requires now >= 20000
    requires s.expiresAt == Some(now / 1000 - 10)
    ensures Next(true, Initial, Input(SessionFetched(Fetched(Some(s))), now)) == Step(SignedOut, [PurgeSession])
  {
  }

  /** An error from the initial request fails closed, and nothing is purged. */
  lemma FetchErrorFailsClosed(configured: bool, st: AuthState, e: AuthError, now: int)
    ensures Next(configured, st, Input(SessionFetched(FetchFailed(e)), now)) == Step(SignedOut, [])
  {
  }

  /** The initial request finds nobody; a later notification delivers a
      valid session: the provider ends signed in with that session. */
  lemma LateNotificationSignsIn(s: Session, t0: int, t1: int)
    requires IsValidSession(Some(s), t1)
    ensures Run(true, Initial, [Input(Mount, t0), Input(SessionFetched(Fetched(Null)), t0),
                                Input(AuthChanged(Some(s)), t1)]).state
            == AuthState(s.user, Some(s), false)
  {
    var inputs := [Input(Mount, t0), Input(SessionFetched(Fetched(Null)), t0), Input(AuthChanged(Some(s)), t1)];
    assert inputs[1..][1..][1..] == [];
    assert Run(true, Initial, inputs[1..][1..]).state == AuthState(s.user, Some(s), false);
    assert Run(true, Initial, inputs[1..]).state == Run(true, SignedOut, inputs[1..][1..]).state;
  }

  /** The race the provider leaves open: an initial request that resolves
      after a notification overwrites the newer state with its older answer. */
  lemma StaleFetchOverwritesNotification(s: Session, t0: int, t1: int, t2: int)
    requires IsValidSession(Some(s), t1)
    ensures Run(true, Initial, [Input(Mount, t0), Input(AuthChanged(Some(s)), t1),
                                Input(SessionFetched(Fetched(Null)), t2)]).state
            == SignedOut
  {
    var inputs := [Input(Mount, t0), Input(AuthChanged(Some(s)), t1), Input(SessionFetched(Fetched(Null)), t2)];
    assert inputs[1..][1..][1..] == [];
    var signedIn := AuthState(s.user, Some(s), false);
    assert Run(true, signedIn, inputs[1..][1..]).state == SignedOut;
    assert Run(true, Initial, inputs[1..]).state == Run(true, signedIn, inputs[1..][1..]).state;
  }
}
