/** Sessions issued by the backend and the validity test the site applies to
    them. The test is written twice in the source, once in the auth provider
    and once in the route guard, with identical bodies (the guard's copy
    takes an untyped argument); here it is defined once and both the store
    and the guard use it. */
module Sessions {
  import opened Js
  import opened Text

  /** The signed-in identity. */
  datatype User = User(id: string, email: Nullable<string>)

  /** A session as the backend returns it. `expiresAt` is in epoch seconds;
      the validity test compares it with a clock reading in milliseconds. */
  datatype Session = Session(
    user: Nullable<User>,
    accessToken: Nullable<string>,
    expiresAt: Nullable<int>)

  /** The session carries a non-zero expiry (a truthy number) whose
      millisecond value lies strictly before `now`. */
  predicate Expired(s: Session, now: int) {
    s.expiresAt.Some? && s.expiresAt.value != 0 && s.expiresAt.value * 1000 < now
  }

  /** The access token is present and holds a non-whitespace character. */
  predicate HasToken(s: Session) {
    s.accessToken.Some? &&
    exists i :: 0 <= i < |s.accessToken.value| && !IsWhitespace(s.accessToken.value[i])
  }

  /** `isValidSession(session)` with `Date.now()` passed in as `now`: the
      early-return ladder of the source. */
  function IsValidSession(session: Nullable<Session>, now: int): (valid: bool)
    ensures valid <==>
      && session.Some?
      && session.value.user.Some?
      && !Expired(session.value, now)
      && HasToken(session.value)
  {
    if session.Null? then false
    else if session.value.user.Null? then false
    else if session.value.expiresAt.Some? && session.value.expiresAt.value != 0
            && session.value.expiresAt.value * 1000 < now then false
    else if session.value.accessToken.Null? || Trim(session.value.accessToken.value) == "" then false
    else true
  }

  /** At the instant the expiry is reached the session is still valid; one
      millisecond later it is not. */
  lemma ExpiryBoundary(s: Session, exp: int)
    requires s.user.Some? && HasToken(s)
    requires exp != 0 && s.expiresAt == Some(exp)
    ensures IsValidSession(Some(s), exp * 1000)
    ensures !IsValidSession(Some(s), exp * 1000 + 1)
  {
  }

  /** A session without an expiry, or with expiry 0, is judged on its user
      and token alone, at every clock reading. */
  lemma NoExpiryNeverExpires(s: Session, now: int, later: int)
    requires s.expiresAt == Null || s.expiresAt == Some(0)
    ensures IsValidSession(Some(s), now) == IsValidSession(Some(s), later)
    ensures IsValidSession(Some(s), now) <==> s.user.Some? && HasToken(s)
  {
  }

  /** Validity only decays: a session valid at some instant was valid at
      every earlier instant, and one invalid at some instant stays invalid. */
  lemma ValidityDecays(session: Nullable<Session>, earlier: int, later: int)
    requires earlier <= later
    ensures IsValidSession(session, later) ==> IsValidSession(session, earlier)
  {
  }

  /** A whitespace-only token is rejected whatever the other fields are. */
  lemma BlankTokenInvalid(s: Session, now: int)
    requires s.accessToken.Some? && IsBlank(s.accessToken.value)
    ensures !IsValidSession(Some(s), now)
  {
  }
}
