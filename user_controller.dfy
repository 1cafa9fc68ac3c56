/** The user-management handlers (src/controllers/userController.js). Each handler
    returns its HTTP status; on every non-2xx status the store is left as it was. */
module UserController {
  import opened Base
  import opened Query
  import opened Schema
  import opened Store
  import UserService

  // ---------------------------------------------------------------------------
  // Profile updates

  /** The user with each of `nombre`, `direccion`, `telefono` overwritten when the
      request provides it (truthy); `direccion` is replaced as a whole object. */
  function UpdatedProfile(u: User, nombre: string, direccion: Option<Address>, telefono: string): (r: User)
    ensures r.nombre == (if Truthy(nombre) then nombre else u.nombre)
    ensures r.telefono == (if Truthy(telefono) then telefono else u.telefono)
    ensures r.direccion == (if direccion.Some? then direccion.value else u.direccion)
    ensures r.(nombre := u.nombre, telefono := u.telefono, direccion := u.direccion) == u
  {
    var u1 := if Truthy(nombre) then u.(nombre := nombre) else u;
    var u2 := if direccion.Some? then u1.(direccion := direccion.value) else u1;
    if Truthy(telefono) then u2.(telefono := telefono) else u2
  }

  /** Applying the same partial update twice is applying it once. */
  lemma UpdatedProfileIdempotent(u: User, nombre: string, direccion: Option<Address>, telefono: string)
    ensures UpdatedProfile(UpdatedProfile(u, nombre, direccion, telefono), nombre, direccion, telefono)
         == UpdatedProfile(u, nombre, direccion, telefono)
  {
  }

  /** An empty request body changes nothing. */
  lemma EmptyProfileUpdateIsIdentity(u: User)
    ensures UpdatedProfile(u, "", None, "") == u
  {
  }

  /** `updateProfile`: 404 for an unknown user, otherwise 200 with the partial update saved. */
  method UpdateProfile(db: Database, userId: Oid, nombre: string, direccion: Option<Address>, telefono: string)
    returns (status: int)
    modifies db
    ensures UserById(old(db.users), userId).None? ==> status == 404 && db.users == old(db.users)
    ensures UserById(old(db.users), userId).Some? ==>
      var i := UserById(old(db.users), userId).value;
      status == 200 && db.users == old(db.users)[i := UpdatedProfile(old(db.users)[i], nombre, direccion, telefono)]
    ensures db.accounts == old(db.accounts) && db.sessions == old(db.sessions)
    ensures db.failedAttempts == old(db.failedAttempts) && db.passHistory == old(db.passHistory) && db.nextId == old(db.nextId)
  {
    var found := UserById(db.users, userId);
    if found.None? {
      return 404;
    }
    var user := db.users[found.value];
    if Truthy(nombre) { user := user.(nombre := nombre); }
    if direccion.Some? { user := user.(direccion := direccion.value); }
    if Truthy(telefono) { user := user.(telefono := telefono); }
    db.users := db.users[found.value := user];
    status := 200;
  }

  /** All four parts of an address are present. */
  predicate CompleteAddress(a: Address) {
    Truthy(a.calle) && Truthy(a.ciudad) && Truthy(a.estado) && Truthy(a.codigoPostal)
  }

  /** `updateUserProfile`: the user lookup comes first (404), then the address must be
      complete (400); on success the address is exactly the four parts given. */
  method UpdateUserProfile(db: Database, userId: Oid, direccion: Option<Address>) returns (status: int)
    modifies db
    ensures UserById(old(db.users), userId).None? ==> status == 404
    ensures UserById(old(db.users), userId).Some? && (direccion.None? || !CompleteAddress(direccion.value)) ==> status == 400
    ensures status == 200 <==> UserById(old(db.users), userId).Some? && direccion.Some? && CompleteAddress(direccion.value)
    ensures status != 200 ==> db.users == old(db.users)
    ensures status == 200 ==>
      var i := UserById(old(db.users), userId).value;
      db.users == old(db.users)[i := old(db.users)[i].(direccion := direccion.value)]
    ensures db.accounts == old(db.accounts) && db.sessions == old(db.sessions)
    ensures db.failedAttempts == old(db.failedAttempts) && db.passHistory == old(db.passHistory) && db.nextId == old(db.nextId)
  {
    var found := UserById(db.users, userId);
    if found.None? {
      return 404;
    }
    if direccion.None? || !CompleteAddress(direccion.value) {
      return 400;
    }
    var d := direccion.value;
    db.users := db.users[found.value := db.users[found.value].(direccion := Address(d.calle, d.ciudad, d.estado, d.codigoPostal))];
    status := 200;
  }

  // ---------------------------------------------------------------------------
  // Password change

  /** `changePassword`: the account must exist (404) and the current password verify
      (400); the history check may refuse (400); only then are the new hash (fresh
      salt `salt`) and the change date written. Sessions and the failed-attempt
      counter are left alone. */
  method ChangePassword(db: Database, userId: Oid, currentPassword: Password, newPassword: Password, salt: nat, now: Time)
    returns (status: int)
    modifies db
    ensures AccountByUser(old(db.accounts), userId).None? ==> status == 404
    ensures AccountByUser(old(db.accounts), userId).Some? && status != 200 ==> status == 400
    ensures status == 200 <==>
      AccountByUser(old(db.accounts), userId).Some? &&
      var a := old(db.accounts)[AccountByUser(old(db.accounts), userId).value];
      Matches(currentPassword, a.contraseniaHash) && !UserService.Reused(old(db.passHistory), a.id, newPassword)
    ensures status != 200 ==> db.accounts == old(db.accounts) && db.passHistory == old(db.passHistory)
    ensures status == 200 ==>
      var i := AccountByUser(old(db.accounts), userId).value;
      var a := old(db.accounts)[i];
      db.accounts == old(db.accounts)[i := a.(contraseniaHash := HashPassword(newPassword, salt), fechaUltimoCambio := Some(now))]
      && db.passHistory == old(db.passHistory) + [PassHistoryEntry(a.id, a.contraseniaHash, now)]
    ensures db.users == old(db.users) && db.sessions == old(db.sessions)
    ensures db.failedAttempts == old(db.failedAttempts) && db.nextId == old(db.nextId)
  {
    var found := AccountByUser(db.accounts, userId);
    if found.None? {
      return 404;
    }
    var account := db.accounts[found.value];
    if !Matches(currentPassword, account.contraseniaHash) {
      return 400;
    }
    var ok := UserService.TrackPasswordHistory(db, account.id, account.contraseniaHash, newPassword, now);
    if !ok {
      return 400;
    }
    var newHash := HashPassword(newPassword, salt);
    db.accounts := db.accounts[found.value := account.(contraseniaHash := newHash, fechaUltimoCambio := Some(now))];
    status := 200;
  }

  /** After a successful change the new password verifies, the old one no longer does,
      and changing back to the old one is refused by the history check. */
  lemma ChangedPasswordState(history: seq<PassHistoryEntry>, a: Account, oldPassword: Password, newPassword: Password, salt: nat, now: Time)
    requires Matches(oldPassword, a.contraseniaHash) && oldPassword != newPassword
    ensures Matches(newPassword, HashPassword(newPassword, salt))
    ensures !Matches(oldPassword, HashPassword(newPassword, salt))
    ensures UserService.Reused(history + [PassHistoryEntry(a.id, a.contraseniaHash, now)], a.id, oldPassword)
  {
    UserService.ChangingBackIsRefused(history, a.id, a.contraseniaHash, oldPassword, now);
  }

  // ---------------------------------------------------------------------------
  // Account deletion

  /** `PassHistory.deleteMany({ account_id: userId })`: drops the entries keyed by the
      USER id, while entries are stored under the account id. */
  function PurgeHistory(history: seq<PassHistoryEntry>, userId: Oid): (r: seq<PassHistoryEntry>)
    ensures forall k :: 0 <= k < |r| ==> r[k].accountId != userId
    ensures forall k :: 0 <= k < |history| && history[k].accountId != userId ==> history[k] in r
    ensures forall k :: 0 <= k < |r| ==> r[k] in history
  {
    Filter(history, (e: PassHistoryEntry) => e.accountId != userId)
  }

  /** `FailedAttempt.deleteMany({ user_id })`. */
  function PurgeAttempts(attempts: seq<FailedAttempt>, userId: Oid): (r: seq<FailedAttempt>)
    ensures forall k :: 0 <= k < |r| ==> r[k].userId != userId
    ensures forall k :: 0 <= k < |attempts| && attempts[k].userId != userId ==> attempts[k] in r
    ensures forall k :: 0 <= k < |r| ==> r[k] in attempts
  {
    Filter(attempts, (a: FailedAttempt) => a.userId != userId)
  }

  /** `Session.deleteMany({ user_id })`. */
  function PurgeSessions(sessions: seq<Session>, userId: Oid): (r: seq<Session>)
    ensures forall k :: 0 <= k < |r| ==> r[k].userId != userId
    ensures forall k :: 0 <= k < |sessions| && sessions[k].userId != userId ==> sessions[k] in r
    ensures forall k :: 0 <= k < |r| ==> r[k] in sessions
  {
    Filter(sessions, (s: Session) => s.userId != userId)
  }

  /** `Account.findOneAndDelete({ user_id })`: the user's first account goes. */
  function RemoveAccountOf(accounts: seq<Account>, userId: Oid): (r: seq<Account>)
    ensures AccountByUser(accounts, userId).None? ==> r == accounts
    ensures AccountByUser(accounts, userId).Some? ==>
      r == RemoveAt(accounts, AccountByUser(accounts, userId).value) && |r| == |accounts| - 1
  {
    match AccountByUser(accounts, userId)
    case None => accounts
    case Some(j) => RemoveAt(accounts, j)
  }

  /** `deleteMyAccount` and `deleteCustomerAccount` (the same cascade, once with the
      caller's own id and once with a path id): 404 for an unknown user, 403 unless
      the user is a `cliente`; otherwise the user, its account, its failed attempts,
      its sessions and the history entries keyed by its user id are removed. */
  method DeleteClientAccount(db: Database, userId: Oid) returns (status: int)
    modifies db
    ensures UserById(old(db.users), userId).None? ==> status == 404
    ensures UserById(old(db.users), userId).Some? && old(db.users)[UserById(old(db.users), userId).value].tipoUsuario != Cliente
      ==> status == 403
    ensures status == 200 <==>
      UserById(old(db.users), userId).Some? && old(db.users)[UserById(old(db.users), userId).value].tipoUsuario == Cliente
    ensures status != 200 ==>
      db.users == old(db.users) && db.accounts == old(db.accounts) && db.sessions == old(db.sessions)
      && db.failedAttempts == old(db.failedAttempts) && db.passHistory == old(db.passHistory)
    ensures status == 200 ==>
      db.users == RemoveAt(old(db.users), UserById(old(db.users), userId).value)
      && db.accounts == RemoveAccountOf(old(db.accounts), userId)
      && db.passHistory == PurgeHistory(old(db.passHistory), userId)
      && db.failedAttempts == PurgeAttempts(old(db.failedAttempts), userId)
      && db.sessions == PurgeSessions(old(db.sessions), userId)
    ensures db.nextId == old(db.nextId)
  {
    var found := UserById(db.users, userId);
    if found.None? {
      return 404;
    }
    if db.users[found.value].tipoUsuario != Cliente {
      return 403;
    }
    db.users := RemoveAt(db.users, found.value);
    db.accounts := RemoveAccountOf(db.accounts, userId);
    db.passHistory := PurgeHistory(db.passHistory, userId);
    db.failedAttempts := PurgeAttempts(db.failedAttempts, userId);
    db.sessions := PurgeSessions(db.sessions, userId);
    status := 200;
  }

  /** The cascade leaves no session and no failed-attempt record of the user, and
      keeps every other user's. */
  lemma DeletionClearsUserRecords(sessions: seq<Session>, attempts: seq<FailedAttempt>, userId: Oid, other: Oid)
    requires other != userId
    ensures forall k :: 0 <= k < |PurgeSessions(sessions, userId)| ==> PurgeSessions(sessions, userId)[k].userId != userId
    ensures forall s :: s in sessions && s.userId != userId ==> s in PurgeSessions(sessions, userId)
    ensures AttemptByUser(PurgeAttempts(attempts, userId), userId).None?
    ensures AttemptByUser(attempts, other).Some? ==> AttemptByUser(PurgeAttempts(attempts, userId), other).Some?
  {
    var r := PurgeAttempts(attempts, userId);
    if AttemptByUser(attempts, other).Some? {
      var k := AttemptByUser(attempts, other).value;
      assert attempts[k] in r;
      var m :| 0 <= m < |r| && r[m] == attempts[k];
      assert r[m].userId == other;
    }
  }

  /** The history purge misses the deleted account's own entries whenever the account
      id differs from the user id, which it always does when ids are distinct: the
      user's former password hashes survive the deletion. */
  lemma DeletionKeepsAccountHistory(history: seq<PassHistoryEntry>, a: Account, k: nat)
    requires a.id != a.userId
    requires k < |history| && history[k].accountId == a.id
    ensures history[k] in PurgeHistory(history, a.userId)
  {
  }

  /** A concrete store: user 1 owns account 2, whose history entry survives the purge. */
  lemma DeletionLeavesOrphanHistory()
    ensures var e := PassHistoryEntry(2, Bcrypt(0, "old"), 0);
      PurgeHistory([e], 1) == [e]
  {
    var e := PassHistoryEntry(2, Bcrypt(0, "old"), 0);
    var r := PurgeHistory([e], 1);
    assert e in r;
    assert |r| <= 1;
  }

  // ---------------------------------------------------------------------------
  // Administrator views and actions

  /** One row of `getAllUsersWithSessions`; `ultimaSesion` is (fecha_creacion, navegador). */
  datatype UserSummary = UserSummary(
    id: Oid,
    nombre: string,
    email: string,
    estado: Estado,
    sesionActiva: bool,
    ultimaSesion: Option<(Time, string)>)

  /** The user's sessions with `revocada = false`, newest `fecha_creacion` first. */
  function Summarize(u: User, sessions: seq<Session>): (r: UserSummary)
    ensures r.id == u.id && r.nombre == u.nombre && r.email == u.email && r.estado == u.estado
    ensures r.sesionActiva <==> exists j :: 0 <= j < |sessions| && sessions[j].userId == u.id && !sessions[j].revocada
    ensures r.ultimaSesion.Some? <==> r.sesionActiva
    ensures r.ultimaSesion.Some? ==> exists j :: (0 <= j < |sessions| && sessions[j].userId == u.id && !sessions[j].revocada
      && r.ultimaSesion.value == (sessions[j].fechaCreacion, sessions[j].navegador)
      && forall k :: 0 <= k < |sessions| && sessions[k].userId == u.id && !sessions[k].revocada ==>
           sessions[k].fechaCreacion <= sessions[j].fechaCreacion)
  {
    var latest := LatestIndex(sessions, (s: Session) => s.userId == u.id && !s.revocada, (s: Session) => s.fechaCreacion);
    match latest
    case None => UserSummary(u.id, u.nombre, u.email, u.estado, false, None)
    case Some(j) =>
      UserSummary(u.id, u.nombre, u.email, u.estado, true, Some((sessions[j].fechaCreacion, sessions[j].navegador)))
  }

  /** `getAllUsersWithSessions`: one row per user, in store order. */
  function GetAllUsersWithSessions(users: seq<User>, sessions: seq<Session>): (r: seq<UserSummary>)
    ensures |r| == |users|
    ensures forall k :: 0 <= k < |r| ==> r[k].id == users[k].id
    ensures forall k :: 0 <= k < |r| ==>
      (r[k].sesionActiva <==> exists j :: 0 <= j < |sessions| && sessions[j].userId == users[k].id && !sessions[j].revocada)
    ensures forall k :: 0 <= k < |r| ==> r[k] == Summarize(users[k], sessions)
  {
    seq(|users|, k requires 0 <= k < |users| => Summarize(users[k], sessions))
  }

  /** Revoking a session of someone else does not change a user's row. */
  lemma SummaryIgnoresOtherUsers(u: User, sessions: seq<Session>, i: nat)
    requires i < |sessions| && sessions[i].userId != u.id
    ensures Summarize(u, RevokeAt(sessions, i)).sesionActiva == Summarize(u, sessions).sesionActiva
  {
    var s2 := RevokeAt(sessions, i);
    if Summarize(u, sessions).sesionActiva {
      var j :| 0 <= j < |sessions| && sessions[j].userId == u.id && !sessions[j].revocada;
      assert s2[j] == sessions[j];
    }
    if Summarize(u, s2).sesionActiva {
      var j :| 0 <= j < |s2| && s2[j].userId == u.id && !s2[j].revocada;
      assert s2[j] == sessions[j];
    }
  }

  const ValidActions: seq<string> := ["bloquear", "suspender", "activar"]

  /** The `estado` string the switch assigns for a valid action. */
  function AssignedEstado(accion: string): string {
    if accion == "bloquear" then "bloqueado"
    else if accion == "suspender" then "suspendido"
    else "activo"
  }

  /** What `save()` makes of the assignment: the enum rejects `suspendido`. */
  function NewEstado(accion: string): (r: Option<Estado>)
    requires accion in ValidActions
    ensures r == Some(Bloqueado) <==> accion == "bloquear"
    ensures r == Some(Activo) <==> accion == "activar"
    ensures r.None? <==> accion == "suspender"
  {
    EstadoFromString(AssignedEstado(accion))
  }

  /** `deactivateAccount`: 400 for an action outside the three valid ones (before any
      lookup), 404 for an unknown user, 400 when the target is the acting admin; a
      `suspender` fails in `save()` (500); otherwise the new `estado` is saved. */
  method DeactivateAccount(db: Database, targetId: Oid, accion: string, adminId: Oid) returns (status: int)
    modifies db
    ensures accion !in ValidActions ==> status == 400
    ensures accion in ValidActions && UserById(old(db.users), targetId).None? ==> status == 404
    ensures accion in ValidActions && UserById(old(db.users), targetId).Some? && targetId == adminId ==> status == 400
    ensures accion in ValidActions && UserById(old(db.users), targetId).Some? && targetId != adminId && NewEstado(accion).None?
      ==> status == 500
    ensures status == 200 <==>
      accion in ValidActions && UserById(old(db.users), targetId).Some? && targetId != adminId && NewEstado(accion).Some?
    ensures status != 200 ==> db.users == old(db.users)
    ensures status == 200 ==>
      var i := UserById(old(db.users), targetId).value;
      db.users == old(db.users)[i := old(db.users)[i].(estado := NewEstado(accion).value)]
    ensures db.accounts == old(db.accounts) && db.sessions == old(db.sessions)
    ensures db.failedAttempts == old(db.failedAttempts) && db.passHistory == old(db.passHistory) && db.nextId == old(db.nextId)
  {
    if accion !in ValidActions {
      return 400;
    }
    var found := UserById(db.users, targetId);
    if found.None? {
      return 404;
    }
    if db.users[found.value].id == adminId {
      return 400;
    }
    var estado := EstadoFromString(AssignedEstado(accion));
    if estado.None? {
      return 500;
    }
    db.users := db.users[found.value := db.users[found.value].(estado := estado.value)];
    status := 200;
  }
}
