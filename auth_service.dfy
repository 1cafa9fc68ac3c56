/** Account-security bookkeeping (src/services/authService.js): the failed-attempt
    counter kept per user, the `requiere_cambio` lock flag and the rotation check.
    Hashing is Base.HashPassword / Base.Matches; JWT signing is left out. */
module AuthService {
  import opened Base
  import opened Query
  import opened Schema
  import opened Store
  import opened AuthUtils

  const MaxFailedAttempts: nat := 5

  /** Declared by handleFailedAttempt and never used: the lock has no expiry. */
  const LockDurationMs: int := 30 * 60 * 1000

  // ---------------------------------------------------------------------------
  // The failed-attempt store as a value

  /** `numero_intentos` of the user's record (the first one `findOne` sees), 0 when there is none. */
  function AttemptCount(attempts: seq<FailedAttempt>, userId: Oid): nat {
    match AttemptByUser(attempts, userId)
    case None => 0
    case Some(i) => attempts[i].numeroIntentos
  }

  /** The find-or-create step of handleFailedAttempt: a new record with count 1, or the
      user's record with its count incremented and its date renewed. */
  function RecordFailure(attempts: seq<FailedAttempt>, userId: Oid, ip: string, now: Time): seq<FailedAttempt> {
    match AttemptByUser(attempts, userId)
    case None => attempts + [FailedAttempt(userId, now, ip, 1)]
    case Some(i) => attempts[i := attempts[i].(numeroIntentos := attempts[i].numeroIntentos + 1, fecha := now)]
  }

  /** `FailedAttempt.deleteOne({ user_id })`: the user's first record goes. */
  function ClearAttempts(attempts: seq<FailedAttempt>, userId: Oid): seq<FailedAttempt> {
    match AttemptByUser(attempts, userId)
    case None => attempts
    case Some(i) => attempts[..i] + attempts[i + 1..]
  }

  /** The user has at most one record, as the sequential find-or-create keeps it. */
  ghost predicate AtMostOneRecord(attempts: seq<FailedAttempt>, userId: Oid) {
    forall i, j :: 0 <= i < j < |attempts| && attempts[i].userId == userId ==> attempts[j].userId != userId
  }

  /** `n` consecutive failures of one user from the same address at the same instant. */
  function Failures(attempts: seq<FailedAttempt>, userId: Oid, ip: string, now: Time, n: nat): seq<FailedAttempt> {
    if n == 0 then attempts else RecordFailure(Failures(attempts, userId, ip, now, n - 1), userId, ip, now)
  }

  /** Setting `estado_contrasenia.requiere_cambio` on the user's account, when there is one. */
  function RequireChange(accounts: seq<Account>, userId: Oid): seq<Account> {
    match AccountByUser(accounts, userId)
    case None => accounts
    case Some(i) => accounts[i := accounts[i].(requiereCambio := true)]
  }

  // ---------------------------------------------------------------------------
  // Properties of the counter

  /** The first failure of a user without a record counts 1; each later failure adds exactly 1. */
  lemma RecordFailureIncrements(attempts: seq<FailedAttempt>, userId: Oid, ip: string, now: Time)
    ensures AttemptCount(RecordFailure(attempts, userId, ip, now), userId) == AttemptCount(attempts, userId) + 1
    ensures AttemptByUser(attempts, userId).None? ==> AttemptCount(RecordFailure(attempts, userId, ip, now), userId) == 1
  {
    var r := RecordFailure(attempts, userId, ip, now);
    match AttemptByUser(attempts, userId)
    case None =>
      assert r[|attempts|].userId == userId;
      assert forall j :: 0 <= j < |attempts| ==> r[j] == attempts[j];
    case Some(i) =>
      assert r[i].userId == userId;
      assert forall j :: 0 <= j < i ==> r[j] == attempts[j];
  }

  /** A failure of one user leaves every other user's count alone. */
  lemma RecordFailureIsolated(attempts: seq<FailedAttempt>, userId: Oid, other: Oid, ip: string, now: Time)
    requires other != userId
    ensures AttemptCount(RecordFailure(attempts, userId, ip, now), other) == AttemptCount(attempts, other)
  {
    var r := RecordFailure(attempts, userId, ip, now);
    assert forall j :: 0 <= j < |attempts| ==> r[j].userId == attempts[j].userId;
    assert forall j :: 0 <= j < |attempts| && r[j].userId == other ==> r[j] == attempts[j];
    match AttemptByUser(attempts, other)
    case None =>
    case Some(k) =>
  }

  /** Once locked, every further failure also reports locked: the counter never decreases. */
  lemma LockIsSticky(attempts: seq<FailedAttempt>, userId: Oid, ip: string, now: Time)
    requires AttemptCount(attempts, userId) >= MaxFailedAttempts
    ensures AttemptCount(RecordFailure(attempts, userId, ip, now), userId) >= MaxFailedAttempts
  {
    RecordFailureIncrements(attempts, userId, ip, now);
  }

  /** `n` failures raise the count by exactly `n`. */
  lemma {:induction false} FailuresCount(attempts: seq<FailedAttempt>, userId: Oid, ip: string, now: Time, n: nat)
    ensures AttemptCount(Failures(attempts, userId, ip, now, n), userId) == AttemptCount(attempts, userId) + n
  {
    if n > 0 {
      var before := Failures(attempts, userId, ip, now, n - 1);
      assert AttemptCount(before, userId) == AttemptCount(attempts, userId) + n - 1 by {
        FailuresCount(attempts, userId, ip, now, n - 1);
      }
      assert AttemptCount(RecordFailure(before, userId, ip, now), userId) == AttemptCount(before, userId) + 1 by {
        RecordFailureIncrements(before, userId, ip, now);
      }
    }
  }

  /** From no record, the n-th consecutive failure reports locked exactly when n >= 5:
      the fourth does not lock, the fifth does. */
  lemma LockoutThreshold(attempts: seq<FailedAttempt>, userId: Oid, ip: string, now: Time, n: nat)
    requires AttemptByUser(attempts, userId).None?
    ensures AttemptCount(Failures(attempts, userId, ip, now, n), userId) >= MaxFailedAttempts <==> n >= MaxFailedAttempts
  {
    FailuresCount(attempts, userId, ip, now, n);
  }

  /** The find-or-create step never creates a second record for anyone. */
  lemma RecordFailureKeepsAtMostOne(attempts: seq<FailedAttempt>, userId: Oid, who: Oid, ip: string, now: Time)
    requires AtMostOneRecord(attempts, who)
    ensures AtMostOneRecord(RecordFailure(attempts, userId, ip, now), who)
  {
    var r := RecordFailure(attempts, userId, ip, now);
    assert forall j :: 0 <= j < |attempts| ==> r[j].userId == attempts[j].userId;
  }

  /** Clearing a user with at most one record leaves no count, so the next failure starts again at 1. */
  lemma ClearRestartsCount(attempts: seq<FailedAttempt>, userId: Oid, ip: string, now: Time)
    requires AtMostOneRecord(attempts, userId)
    ensures AttemptByUser(ClearAttempts(attempts, userId), userId).None?
    ensures AttemptCount(RecordFailure(ClearAttempts(attempts, userId), userId, ip, now), userId) == 1
  {
    var c := ClearAttempts(attempts, userId);
    if AttemptByUser(attempts, userId).Some? {
      var i := AttemptByUser(attempts, userId).value;
      forall j | 0 <= j < |c|
        ensures c[j].userId != userId
      {
        if j < i {
          assert c[j] == attempts[j];
        } else {
          assert c[j] == attempts[j + 1];
        }
      }
    }
    RecordFailureIncrements(c, userId, ip, now);
  }

  /** Locking changes only `requiere_cambio` of the user's account, and only when it exists. */
  lemma RequireChangeOnlyFlag(accounts: seq<Account>, userId: Oid)
    ensures |RequireChange(accounts, userId)| == |accounts|
    ensures forall j :: 0 <= j < |accounts| ==>
      RequireChange(accounts, userId)[j] == accounts[j] || RequireChange(accounts, userId)[j] == accounts[j].(requiereCambio := true)
    ensures AccountByUser(accounts, userId).Some? <==> exists j :: 0 <= j < |accounts| && accounts[j].userId == userId
    ensures AccountByUser(accounts, userId).None? ==> RequireChange(accounts, userId) == accounts
    ensures AccountByUser(accounts, userId).Some? ==> RequireChange(accounts, userId)[AccountByUser(accounts, userId).value].requiereCambio
  {
  }

  // ---------------------------------------------------------------------------
  // The service operations on the store

  /** The record a failure saves can be written: an existing record keeps its stored
      address, and a new one needs the required `ip`. */
  predicate FailureSavable(attempts: seq<FailedAttempt>, userId: Oid, ip: string) {
    AttemptByUser(attempts, userId).Some? || Truthy(ip)
  }

  /** `handleFailedAttempt(user_id, ip)`: find-or-create and save the counter; at 5 or
      more, flag the account (if any) for a password change and report locked. A new
      record without an address fails the `required` check, so the save throws
      (`saved` false) and nothing is written. The user's `estado` is never touched. */
  method HandleFailedAttempt(db: Database, userId: Oid, ip: string, now: Time) returns (saved: bool, locked: bool)
    modifies db
    ensures saved <==> FailureSavable(old(db.failedAttempts), userId, ip)
    ensures !saved ==> !locked && db.failedAttempts == old(db.failedAttempts) && db.accounts == old(db.accounts)
    ensures saved ==> db.failedAttempts == RecordFailure(old(db.failedAttempts), userId, ip, now)
    ensures saved ==> (locked <==> AttemptCount(db.failedAttempts, userId) >= MaxFailedAttempts)
    ensures saved ==> db.accounts == if locked then RequireChange(old(db.accounts), userId) else old(db.accounts)
    ensures db.users == old(db.users) && db.sessions == old(db.sessions)
    ensures db.passHistory == old(db.passHistory) && db.nextId == old(db.nextId)
  {
    var count: nat;
    var found := AttemptByUser(db.failedAttempts, userId);
    if found.None? {
      if !Truthy(ip) {
        return false, false;
      }
      db.failedAttempts := db.failedAttempts + [FailedAttempt(userId, now, ip, 1)];
      count := 1;
    } else {
      var rec := db.failedAttempts[found.value];
      count := rec.numeroIntentos + 1;
      db.failedAttempts := db.failedAttempts[found.value := rec.(numeroIntentos := count, fecha := now)];
    }
    saved := true;
    RecordFailureIncrements(old(db.failedAttempts), userId, ip, now);

    if count >= MaxFailedAttempts {
      var account := AccountByUser(db.accounts, userId);
      if account.Some? {
        db.accounts := db.accounts[account.value := db.accounts[account.value].(requiereCambio := true)];
      }
      locked := true;
    } else {
      locked := false;
    }
  }

  /** `clearFailedAttempts(user_id)`. */
  method ClearFailedAttempts(db: Database, userId: Oid)
    modifies db
    ensures db.failedAttempts == ClearAttempts(old(db.failedAttempts), userId)
    ensures db.users == old(db.users) && db.accounts == old(db.accounts) && db.sessions == old(db.sessions)
    ensures db.passHistory == old(db.passHistory) && db.nextId == old(db.nextId)
  {
    var found := AttemptByUser(db.failedAttempts, userId);
    if found.Some? {
      db.failedAttempts := db.failedAttempts[..found.value] + db.failedAttempts[found.value + 1..];
    }
  }

  /** `lockAccount(user_id)`: always reports locked; flags the account when it exists. */
  method LockAccount(db: Database, userId: Oid) returns (locked: bool)
    modifies db
    ensures locked
    ensures db.accounts == RequireChange(old(db.accounts), userId)
    ensures db.users == old(db.users) && db.sessions == old(db.sessions) && db.failedAttempts == old(db.failedAttempts)
    ensures db.passHistory == old(db.passHistory) && db.nextId == old(db.nextId)
  {
    var account := AccountByUser(db.accounts, userId);
    if account.Some? {
      db.accounts := db.accounts[account.value := db.accounts[account.value].(requiereCambio := true)];
    }
    locked := true;
  }

  /** `forcePasswordRotation(accountId)`: fails (None) for a missing account, otherwise
      classifies the account's last change date. */
  function ForcePasswordRotation(accounts: seq<Account>, accountId: Oid, now: Time, sixMonthsAgo: Time): (r: Option<RotationStatus>)
    requires sixMonthsAgo < now - WarningPeriodMs
    ensures r.None? <==> forall j :: 0 <= j < |accounts| ==> accounts[j].id != accountId
    ensures r.Some? ==> exists j :: (0 <= j < |accounts| && accounts[j].id == accountId
      && r.value == CheckPasswordRotation(accounts[j].fechaUltimoCambio, now, sixMonthsAgo))
  {
    match AccountById(accounts, accountId)
    case None => None
    case Some(i) => Some(CheckPasswordRotation(accounts[i].fechaUltimoCambio, now, sixMonthsAgo))
  }
}
