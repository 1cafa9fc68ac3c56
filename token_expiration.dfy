/** The session-expiry middleware (src/middlewares/verifyTokenExpiration.js). The
    outcome of `jwt.verify` is an input; the token is the value handed to the
    middleware (authMiddleware never sets `req.token`, so the source hands it
    `undefined`). */
module TokenExpiration {
  import opened Base
  import opened Schema
  import opened Store

  datatype VerifyOutcome = Valid | Expired | OtherError

  /** Only an expired token is answered (401); every other outcome, errors included, calls `next`. */
  function ExpirationDecision(outcome: VerifyOutcome): (d: Gate)
    ensures d == Reject(401) <==> outcome == Expired
    ensures d == Next <==> outcome != Expired
  {
    if outcome == Expired then Reject(401) else Next
  }

  /** `Session.findOneAndUpdate({ token }, { revocada: true })`: the first session with
      the token is revoked; nothing changes when none has it. */
  function RevokeByToken(sessions: seq<Session>, token: Token): (r: seq<Session>)
    ensures |r| == |sessions|
    ensures forall j :: 0 <= j < |r| ==> r[j] == sessions[j] || (sessions[j].token == token && r[j] == sessions[j].(revocada := true))
    ensures forall i, j :: 0 <= i < j < |r| && r[i] != sessions[i] ==> r[j] == sessions[j]
    ensures (forall j :: 0 <= j < |sessions| ==> sessions[j].token != token) ==> r == sessions
    ensures SessionByToken(sessions, token).Some? ==> r[SessionByToken(sessions, token).value].revocada
  {
    match SessionByToken(sessions, token)
    case None => sessions
    case Some(i) => RevokeAt(sessions, i)
  }

  /** `verifyTokenExpiration`: on an expired token, revoke its session and answer 401
      without calling `next`; otherwise call `next` and change nothing. */
  method VerifyTokenExpiration(db: Database, token: Token, outcome: VerifyOutcome) returns (d: Gate)
    modifies db
    ensures d == ExpirationDecision(outcome)
    ensures db.sessions == if outcome == Expired then RevokeByToken(old(db.sessions), token) else old(db.sessions)
    ensures db.users == old(db.users) && db.accounts == old(db.accounts) && db.failedAttempts == old(db.failedAttempts)
    ensures db.passHistory == old(db.passHistory) && db.nextId == old(db.nextId)
  {
    if outcome == Expired {
      db.sessions := RevokeByToken(db.sessions, token);
      return Reject(401);
    }
    d := Next;
  }

  /** Revocation by token is idempotent: a second expired request changes nothing more. */
  lemma RevokeByTokenIdempotent(sessions: seq<Session>, token: Token)
    ensures RevokeByToken(RevokeByToken(sessions, token), token) == RevokeByToken(sessions, token)
  {
    var r := RevokeByToken(sessions, token);
    match SessionByToken(sessions, token)
    case None =>
    case Some(i) =>
      assert forall j :: 0 <= j < |r| ==> r[j].token == sessions[j].token;
      assert SessionByToken(r, token) == Some(i);
  }
}
