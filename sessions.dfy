/** The admin session registry: token to expiry instant, checked and evicted lazily. */
module Sessions {
  import opened Wrappers

  /** Sessions last one hour, in milliseconds. */
  const SessionTtl: int := 60 * 60 * 1000

  /** What `crypto.randomBytes(24).toString("hex")` produces: 48 lower-case hex digits. */
  predicate IsSessionToken(token: string) {
    |token| == 48 && forall i :: 0 <= i < |token| ==> '0' <= token[i] <= '9' || 'a' <= token[i] <= 'f'
  }

  /**
    `validateAdminToken`'s verdict: the token is present and non-empty, it is registered with a
    non-zero expiry, and that expiry is not before `now`.
   */
  predicate TokenAccepted(sessions: map<string, int>, token: Option<string>, now: int) {
    && token.Some? && token.value != ""
    && token.value in sessions && sessions[token.value] != 0
    && !(sessions[token.value] < now)
  }

  /** The registry after `validateAdminToken`: a presented token found expired is removed, nothing else changes. */
  function AfterValidation(sessions: map<string, int>, token: Option<string>, now: int): (r: map<string, int>)
    ensures r.Keys <= sessions.Keys
    ensures forall t :: t in r ==> r[t] == sessions[t]
    ensures forall t :: t in sessions && t !in r ==>
      token == Some(t) && t != "" && sessions[t] != 0 && sessions[t] < now
    ensures TokenAccepted(sessions, token, now) ==> r == sessions
  {
    if token.Some? && token.value != "" && token.value in sessions
       && sessions[token.value] != 0 && sessions[token.value] < now
    then sessions - {token.value}
    else sessions
  }

  /**
    A session created at instant `login` (a non-negative clock reading) is accepted at `now`
    exactly while `now` is at most one hour later; validating it never evicts anything else.
   */
  lemma SessionLifetime(sessions: map<string, int>, token: string, login: int, now: int)
    requires IsSessionToken(token) && login >= 0
    ensures TokenAccepted(sessions[token := login + SessionTtl], Some(token), now) <==> now <= login + SessionTtl
    ensures now > login + SessionTtl ==>
      AfterValidation(sessions[token := login + SessionTtl], Some(token), now) == sessions[token := login + SessionTtl] - {token}
  {
  }
}
