/** The authentication handlers (src/controllers/authController.js): register, login,
    logout, the validated password change and the bulk session revocation. The
    express-validator chains are an input `valid`; the JWT the service signs is an
    input `token`; the request's address and user agent are inputs. */
module AuthController {
  import opened Base
  import opened Query
  import opened Schema
  import opened Store
  import AuthService
  import UserController
  import UserService

  /** Every id in the store was drawn below `nextId`, so the next ones are fresh. */
  predicate IdsBelow(users: seq<User>, accounts: seq<Account>, nextId: Oid) {
    (forall k :: 0 <= k < |users| ==> users[k].id < nextId)
    && (forall k :: 0 <= k < |accounts| ==> accounts[k].id < nextId && accounts[k].userId < nextId)
  }

  /** The user `register` creates: schema defaults for `estado` and `direccion`. */
  function NewUser(id: Oid, nombre: string, email: string, telefono: string, tipo: Role, mfa: bool): (u: User)
    ensures u.id == id && u.email == email && u.tipoUsuario == tipo && u.mfaActivado == mfa
    ensures u.estado == Pendiente && u.direccion == NoAddress
  {
    User(id, nombre, email, telefono, NoAddress, tipo, Pendiente, mfa)
  }

  /** The account `register` links to the user: no change required, changed now,
      TOTP exactly when MFA was requested. */
  function NewAccount(id: Oid, userId: Oid, password: Password, salt: nat, mfa: bool, now: Time): (a: Account)
    ensures a.id == id && a.userId == userId && Matches(password, a.contraseniaHash)
    ensures !a.requiereCambio && a.fechaUltimoCambio == Some(now)
    ensures a.mfaEnabled == mfa && (a.mfaTipo == Some(Totp) <==> mfa) && (a.mfaTipo.None? <==> !mfa)
  {
    Account(id, userId, HashPassword(password, salt), false, Some(now), if mfa then Some(Totp) else None, mfa)
  }

  /** `register`: 400 when validation fails or the e-mail is in use; 500 when the user
      document lacks a required field; otherwise 201 with one user and one account
      created. */
  method Register(db: Database, valid: bool, nombre: string, email: string, telefono: string, password: Password,
                  tipo: Role, mfa: bool, salt: nat, now: Time)
    returns (status: int)
    modifies db
    ensures !valid ==> status == 400
    ensures valid && UserByEmail(old(db.users), email).Some? ==> status == 400
    ensures status == 201 <==>
      valid && UserByEmail(old(db.users), email).None? && Truthy(nombre) && Truthy(email) && Truthy(telefono)
    ensures valid && UserByEmail(old(db.users), email).None? && !(Truthy(nombre) && Truthy(email) && Truthy(telefono)) ==>
      status == 500
    ensures status != 201 ==> db.users == old(db.users) && db.accounts == old(db.accounts) && db.nextId == old(db.nextId)
    ensures status == 201 ==>
      db.users == old(db.users) + [NewUser(old(db.nextId), nombre, email, telefono, tipo, mfa)]
      && db.accounts == old(db.accounts) + [NewAccount(old(db.nextId) + 1, old(db.nextId), password, salt, mfa, now)]
      && db.nextId == old(db.nextId) + 2
    ensures IdsBelow(old(db.users), old(db.accounts), old(db.nextId)) ==> IdsBelow(db.users, db.accounts, db.nextId)
    ensures db.sessions == old(db.sessions) && db.failedAttempts == old(db.failedAttempts) && db.passHistory == old(db.passHistory)
  {
    if !valid {
      return 400;
    }
    if UserByEmail(db.users, email).Some? {
      return 400;
    }
    if !Truthy(nombre) || !Truthy(email) || !Truthy(telefono) {
      return 500;
    }
    var userId := db.nextId;
    db.users := db.users + [NewUser(userId, nombre, email, telefono, tipo, mfa)];
    db.accounts := db.accounts + [NewAccount(userId + 1, userId, password, salt, mfa, now)];
    db.nextId := userId + 2;
    status := 201;
  }

  /** After a registration on a store with fresh ids, login finds the new user by its
      e-mail and the new account by the user's id, and the registered password verifies. */
  lemma RegisteredUserCanBeFound(users: seq<User>, accounts: seq<Account>, nextId: Oid, nombre: string, email: string,
                                 telefono: string, password: Password, tipo: Role, mfa: bool, salt: nat, now: Time)
    requires IdsBelow(users, accounts, nextId)
    requires UserByEmail(users, email).None?
    ensures var u := NewUser(nextId, nombre, email, telefono, tipo, mfa);
      var a := NewAccount(nextId + 1, nextId, password, salt, mfa, now);
      UserByEmail(users + [u], email) == Some(|users|)
      && AccountByUser(accounts + [a], nextId) == Some(|accounts|)
      && Matches(password, (accounts + [a])[|accounts|].contraseniaHash)
  {
    var u := NewUser(nextId, nombre, email, telefono, tipo, mfa);
    var a := NewAccount(nextId + 1, nextId, password, salt, mfa, now);
    var us := users + [u];
    var acs := accounts + [a];
    assert forall k :: 0 <= k < |users| ==> us[k] == users[k];
    assert forall k :: 0 <= k < |accounts| ==> acs[k] == accounts[k] && acs[k].userId != nextId;
    assert us[|users|].email == email;
    assert acs[|accounts|].userId == nextId;
  }

  /** `verifyMfaCode`: a stub that accepts every code. */
  function VerifyMfaCode(code: string, user: User): (ok: bool)
    ensures ok
  {
    true
  }

  /** The session a successful login saves: one hour of validity, not revoked. */
  function NewSession(userId: Oid, token: Token, ip: string, navegador: string, now: Time): (s: Session)
    ensures s.userId == userId && s.token == token && !s.revocada
    ensures s.fechaCreacion == now && s.ultimaActividad == now && s.expiracion == now + HourMs
  {
    Session(userId, token, now, now, now + HourMs, ip, navegador, false)
  }

  /** `login`: 400 for a body the validator rejects (no e-mail, or an empty password),
      before any lookup; 400 for an unknown e-mail or a user without account; a wrong password
      records a failure (and reports `locked`), unless a first failure without an
      address cannot be saved (500); a right one clears the counter, then a
      missing MFA code is refused; a session lacking a required field fails to save
      (500); otherwise exactly one session is appended and the token returned. The
      user's `estado` and the counter are never consulted. */
  method Login(db: Database, valid: bool, email: string, password: Password, mfaCode: string, token: Token,
               ip: string, navegador: string, now: Time)
    returns (status: int, locked: bool)
    modifies db
    ensures !valid ==>
      status == 400 && !locked
      && db.failedAttempts == old(db.failedAttempts) && db.accounts == old(db.accounts) && db.sessions == old(db.sessions)
    ensures valid && UserByEmail(old(db.users), email).None? ==>
      status == 400 && db.failedAttempts == old(db.failedAttempts) && db.accounts == old(db.accounts)
    ensures valid && UserByEmail(old(db.users), email).Some? ==>
      var uid := old(db.users)[UserByEmail(old(db.users), email).value].id;
      (AccountByUser(old(db.accounts), uid).None? ==>
        status == 400 && db.failedAttempts == old(db.failedAttempts) && db.accounts == old(db.accounts))
      && (AccountByUser(old(db.accounts), uid).Some? ==>
        var a := old(db.accounts)[AccountByUser(old(db.accounts), uid).value];
        (!Matches(password, a.contraseniaHash) && !AuthService.FailureSavable(old(db.failedAttempts), uid, ip) ==>
          status == 500 && !locked && db.failedAttempts == old(db.failedAttempts) && db.accounts == old(db.accounts))
        && (!Matches(password, a.contraseniaHash) && AuthService.FailureSavable(old(db.failedAttempts), uid, ip) ==>
          status == 400
          && db.failedAttempts == AuthService.RecordFailure(old(db.failedAttempts), uid, ip, now)
          && (locked <==> AuthService.AttemptCount(db.failedAttempts, uid) >= AuthService.MaxFailedAttempts)
          && db.accounts == (if locked then AuthService.RequireChange(old(db.accounts), uid) else old(db.accounts)))
        && (Matches(password, a.contraseniaHash) ==>
          db.failedAttempts == AuthService.ClearAttempts(old(db.failedAttempts), uid)
          && db.accounts == old(db.accounts)
          && (a.mfaEnabled && !Truthy(mfaCode) ==> status == 400)
          && ((!a.mfaEnabled || Truthy(mfaCode)) && !(Truthy(token) && Truthy(ip) && Truthy(navegador)) ==> status == 500)
          && (status == 200 <==> (!a.mfaEnabled || Truthy(mfaCode)) && Truthy(token) && Truthy(ip) && Truthy(navegador))
          && (status == 200 ==> db.sessions == old(db.sessions) + [NewSession(uid, token, ip, navegador, now)])))
    ensures status != 200 ==> db.sessions == old(db.sessions)
    ensures db.users == old(db.users) && db.passHistory == old(db.passHistory) && db.nextId == old(db.nextId)
  {
    locked := false;
    if !valid {
      return 400, false;
    }
    var foundUser := UserByEmail(db.users, email);
    if foundUser.None? {
      return 400, false;
    }
    var user := db.users[foundUser.value];
    var foundAccount := AccountByUser(db.accounts, user.id);
    if foundAccount.None? {
      return 400, false;
    }
    var account := db.accounts[foundAccount.value];
    if !Matches(password, account.contraseniaHash) {
      var saved;
      saved, locked := AuthService.HandleFailedAttempt(db, user.id, ip, now);
      if !saved {
        return 500, false;
      }
      return 400, locked;
    }
    AuthService.ClearFailedAttempts(db, user.id);
    if account.mfaEnabled {
      if !Truthy(mfaCode) {
        return 400, false;
      }
      var mfaValid := VerifyMfaCode(mfaCode, user);
      if !mfaValid {
        return 400, false;
      }
    }
    if !Truthy(token) || !Truthy(ip) || !Truthy(navegador) {
      return 500, false;
    }
    db.sessions := db.sessions + [NewSession(user.id, token, ip, navegador, now)];
    status := 200;
  }

  /** `logout`: revokes the session matching (user id, token); 404 and no change when none does. */
  method Logout(db: Database, userId: Oid, token: Token) returns (status: int)
    modifies db
    ensures SessionByUserAndToken(old(db.sessions), userId, token).None? ==> status == 404 && db.sessions == old(db.sessions)
    ensures SessionByUserAndToken(old(db.sessions), userId, token).Some? ==>
      status == 200 && db.sessions == RevokeAt(old(db.sessions), SessionByUserAndToken(old(db.sessions), userId, token).value)
    ensures db.users == old(db.users) && db.accounts == old(db.accounts) && db.failedAttempts == old(db.failedAttempts)
    ensures db.passHistory == old(db.passHistory) && db.nextId == old(db.nextId)
  {
    var found := SessionByUserAndToken(db.sessions, userId, token);
    if found.None? {
      return 404;
    }
    db.sessions := db.sessions[found.value := db.sessions[found.value].(revocada := true)];
    status := 200;
  }

  /** Logging out twice finds the same (already revoked) session and changes nothing more. */
  lemma LogoutIsIdempotent(sessions: seq<Session>, userId: Oid, token: Token)
    requires SessionByUserAndToken(sessions, userId, token).Some?
    ensures var i := SessionByUserAndToken(sessions, userId, token).value;
      SessionByUserAndToken(RevokeAt(sessions, i), userId, token) == Some(i)
      && RevokeAt(RevokeAt(sessions, i), i) == RevokeAt(sessions, i)
  {
    var i := SessionByUserAndToken(sessions, userId, token).value;
    var r := RevokeAt(sessions, i);
    assert forall j :: 0 <= j < |r| ==> r[j].userId == sessions[j].userId && r[j].token == sessions[j].token;
  }

  /** `changePassword` of the auth routes: 400 when validation fails; then the same
      steps as the user-route handler; after the account is saved, a missing user
      gives 404, and the notification call decides between 200 and 500. The account
      and history changes stay in place whatever follows the save. */
  method ChangePasswordValidated(db: Database, valid: bool, userId: Oid, currentPassword: Password, newPassword: Password,
                                 salt: nat, now: Time, notifierOk: bool)
    returns (status: int, saved: bool)
    modifies db
    ensures !valid ==> status == 400 && !saved && db.accounts == old(db.accounts) && db.passHistory == old(db.passHistory)
    ensures saved <==>
      valid && AccountByUser(old(db.accounts), userId).Some? &&
      var a := old(db.accounts)[AccountByUser(old(db.accounts), userId).value];
      Matches(currentPassword, a.contraseniaHash) && !UserService.Reused(old(db.passHistory), a.id, newPassword)
    ensures !saved ==> status != 200 && db.accounts == old(db.accounts) && db.passHistory == old(db.passHistory)
    ensures valid && AccountByUser(old(db.accounts), userId).None? ==> status == 404
    ensures valid && AccountByUser(old(db.accounts), userId).Some? && !saved ==> status == 400
    ensures saved ==>
      var i := AccountByUser(old(db.accounts), userId).value;
      var a := old(db.accounts)[i];
      db.accounts == old(db.accounts)[i := a.(contraseniaHash := HashPassword(newPassword, salt), fechaUltimoCambio := Some(now))]
      && db.passHistory == old(db.passHistory) + [PassHistoryEntry(a.id, a.contraseniaHash, now)]
    ensures saved ==> status == (if UserById(old(db.users), userId).None? then 404 else if notifierOk then 200 else 500)
    ensures db.users == old(db.users) && db.sessions == old(db.sessions)
    ensures db.failedAttempts == old(db.failedAttempts) && db.nextId == old(db.nextId)
  {
    if !valid {
      return 400, false;
    }
    status := UserController.ChangePassword(db, userId, currentPassword, newPassword, salt, now);
    if status != 200 {
      return status, false;
    }
    saved := true;
    if UserById(db.users, userId).None? {
      return 404, saved;
    }
    status := if notifierOk then 200 else 500;
  }

  /** `Session.updateMany({ user_id, revocada: false }, { revocada: true })`. */
  function RevokeAll(sessions: seq<Session>, userId: Oid): (r: seq<Session>)
    ensures |r| == |sessions|
    ensures forall k :: 0 <= k < |r| && sessions[k].userId == userId ==> r[k].revocada
    ensures forall k :: 0 <= k < |r| ==> r[k].(revocada := sessions[k].revocada) == sessions[k]
    ensures forall k :: 0 <= k < |r| && sessions[k].userId != userId ==> r[k] == sessions[k]
  {
    seq(|sessions|, k requires 0 <= k < |sessions| =>
      if sessions[k].userId == userId && !sessions[k].revocada then sessions[k].(revocada := true) else sessions[k])
  }

  /** `revokeTokens(user_id)`. */
  method RevokeTokens(db: Database, userId: Oid)
    modifies db
    ensures db.sessions == RevokeAll(old(db.sessions), userId)
    ensures db.users == old(db.users) && db.accounts == old(db.accounts) && db.failedAttempts == old(db.failedAttempts)
    ensures db.passHistory == old(db.passHistory) && db.nextId == old(db.nextId)
  {
    db.sessions := RevokeAll(db.sessions, userId);
  }

  /** After revoking, the user has no active session left, every other user keeps the
      same active sessions, and revoking again changes nothing. */
  lemma RevokeAllProperties(sessions: seq<Session>, users: seq<User>, userId: Oid)
    ensures forall k :: 0 <= k < |users| && users[k].id == userId ==>
      !UserController.Summarize(users[k], RevokeAll(sessions, userId)).sesionActiva
    ensures forall k :: 0 <= k < |users| && users[k].id != userId ==>
      UserController.Summarize(users[k], RevokeAll(sessions, userId)).sesionActiva
        == UserController.Summarize(users[k], sessions).sesionActiva
    ensures RevokeAll(RevokeAll(sessions, userId), userId) == RevokeAll(sessions, userId)
  {
    var r := RevokeAll(sessions, userId);
    forall k | 0 <= k < |users| && users[k].id != userId
      ensures UserController.Summarize(users[k], r).sesionActiva == UserController.Summarize(users[k], sessions).sesionActiva
    {
      RevokeAllSparesOthers(sessions, userId, users[k]);
    }
    assert RevokeAll(r, userId) == r by {
      var rr := RevokeAll(r, userId);
      assert forall k :: 0 <= k < |rr| ==> rr[k] == r[k];
    }
  }

  /** Revoking one user's sessions leaves another user's active flag as it was. */
  lemma RevokeAllSparesOthers(sessions: seq<Session>, userId: Oid, u: User)
    requires u.id != userId
    ensures UserController.Summarize(u, RevokeAll(sessions, userId)).sesionActiva
      == UserController.Summarize(u, sessions).sesionActiva
  {
    var r := RevokeAll(sessions, userId);
    if UserController.Summarize(u, sessions).sesionActiva {
      var j :| 0 <= j < |sessions| && sessions[j].userId == u.id && !sessions[j].revocada;
      assert r[j] == sessions[j];
    }
    if UserController.Summarize(u, r).sesionActiva {
      var j :| 0 <= j < |r| && r[j].userId == u.id && !r[j].revocada;
      assert r[j] == sessions[j];
    }
  }
}
