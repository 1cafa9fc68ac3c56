/** Password-history reuse check (src/services/userService.js). */
module UserService {
  import opened Base
  import opened Query
  import opened Schema
  import opened Store

  /** `PassHistory.find({ account_id })`. */
  function HistoryOf(history: seq<PassHistoryEntry>, accountId: Oid): seq<PassHistoryEntry> {
    Filter(history, (e: PassHistoryEntry) => e.accountId == accountId)
  }

  /** The password verifies against one of the account's stored history hashes. */
  predicate Reused(history: seq<PassHistoryEntry>, accountId: Oid, password: Password) {
    exists i :: 0 <= i < |history| && history[i].accountId == accountId && Matches(password, history[i].contraseniaHash)
  }

  /** The loop of trackPasswordHistory: compare the new password with each entry in
      turn, stopping at the first that verifies. */
  method FindReuse(entries: seq<PassHistoryEntry>, newPassword: Password) returns (isUsed: bool)
    ensures isUsed <==> exists i :: 0 <= i < |entries| && Matches(newPassword, entries[i].contraseniaHash)
  {
    var i := 0;
    while i < |entries|
      invariant 0 <= i <= |entries|
      invariant forall j :: 0 <= j < i ==> !Matches(newPassword, entries[j].contraseniaHash)
    {
      if Matches(newPassword, entries[i].contraseniaHash) {
        return true;
      }
      i := i + 1;
    }
    return false;
  }

  /** Searching the account's entries is searching the whole store for that account. */
  lemma HistoryOfFindsReuse(history: seq<PassHistoryEntry>, accountId: Oid, password: Password)
    ensures Reused(history, accountId, password)
        <==> exists i :: 0 <= i < |HistoryOf(history, accountId)| && Matches(password, HistoryOf(history, accountId)[i].contraseniaHash)
  {
    var entries := HistoryOf(history, accountId);
    if Reused(history, accountId, password) {
      var i :| 0 <= i < |history| && history[i].accountId == accountId && Matches(password, history[i].contraseniaHash);
      assert history[i] in entries;
      var k :| 0 <= k < |entries| && entries[k] == history[i];
      assert Matches(password, entries[k].contraseniaHash);
    }
    if exists i :: 0 <= i < |entries| && Matches(password, entries[i].contraseniaHash) {
      var i :| 0 <= i < |entries| && Matches(password, entries[i].contraseniaHash);
      assert entries[i] in history;
      var k :| 0 <= k < |history| && history[k] == entries[i];
      assert history[k].accountId == accountId;
    }
  }

  /** `trackPasswordHistory(accountId, currentHash, newPassword)`: refuse a new password
      that verifies against a stored history hash of the account; otherwise append the
      current hash to the history. The current hash itself is not checked. */
  method TrackPasswordHistory(db: Database, accountId: Oid, currentHash: Hash, newPassword: Password, now: Time)
    returns (success: bool)
    modifies db
    ensures success <==> !Reused(old(db.passHistory), accountId, newPassword)
    ensures db.passHistory == if success then old(db.passHistory) + [PassHistoryEntry(accountId, currentHash, now)]
                              else old(db.passHistory)
    ensures db.users == old(db.users) && db.accounts == old(db.accounts) && db.sessions == old(db.sessions)
    ensures db.failedAttempts == old(db.failedAttempts) && db.nextId == old(db.nextId)
  {
    var entries := HistoryOf(db.passHistory, accountId);
    var isUsed := FindReuse(entries, newPassword);
    HistoryOfFindsReuse(db.passHistory, accountId, newPassword);
    if isUsed {
      return false;
    }
    db.passHistory := db.passHistory + [PassHistoryEntry(accountId, currentHash, now)];
    success := true;
  }

  /** After a successful call, changing back to the password of the recorded hash is refused. */
  lemma ChangingBackIsRefused(history: seq<PassHistoryEntry>, accountId: Oid, currentHash: Hash, oldPassword: Password, now: Time)
    requires Matches(oldPassword, currentHash)
    ensures Reused(history + [PassHistoryEntry(accountId, currentHash, now)], accountId, oldPassword)
  {
    var h := history + [PassHistoryEntry(accountId, currentHash, now)];
    assert h[|history|].accountId == accountId && Matches(oldPassword, h[|history|].contraseniaHash);
  }

  /** Appending to the history never withdraws a refusal: a reused password stays reused. */
  lemma ReuseIsPermanent(history: seq<PassHistoryEntry>, entry: PassHistoryEntry, accountId: Oid, password: Password)
    requires Reused(history, accountId, password)
    ensures Reused(history + [entry], accountId, password)
  {
    var i :| 0 <= i < |history| && history[i].accountId == accountId && Matches(password, history[i].contraseniaHash);
    assert (history + [entry])[i] == history[i];
  }

  /** Only the account's own entries count: another account's history never refuses. */
  lemma ReuseIsPerAccount(history: seq<PassHistoryEntry>, entry: PassHistoryEntry, accountId: Oid, password: Password)
    requires entry.accountId != accountId
    ensures Reused(history + [entry], accountId, password) <==> Reused(history, accountId, password)
  {
    var h := history + [entry];
    if Reused(h, accountId, password) {
      var i :| 0 <= i < |h| && h[i].accountId == accountId && Matches(password, h[i].contraseniaHash);
      assert i < |history| && h[i] == history[i];
    }
    if Reused(history, accountId, password) {
      ReuseIsPermanent(history, entry, accountId, password);
    }
  }
}
