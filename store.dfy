/** The identity collections held in memory, one sequence per MongoDB collection
    in store order, and the single-document queries the handlers run on them. */
module Store {
  import opened Base
  import opened Query
  import opened Schema

  class Database {
    var users: seq<User>
    var accounts: seq<Account>
    var sessions: seq<Session>
    var failedAttempts: seq<FailedAttempt>
    var passHistory: seq<PassHistoryEntry>
    /** Source of fresh ObjectIds. */
    var nextId: Oid

    constructor ()
      ensures users == [] && accounts == [] && sessions == []
      ensures failedAttempts == [] && passHistory == [] && nextId == 0
    {
      users, accounts, sessions := [], [], [];
      failedAttempts, passHistory := [], [];
      nextId := 0;
    }
  }

  /** `User.findById(id)`. */
  function UserById(users: seq<User>, id: Oid): Option<nat> {
    FindFirst(users, (u: User) => u.id == id)
  }

  /** `User.findOne({ email })`. */
  function UserByEmail(users: seq<User>, email: string): Option<nat> {
    FindFirst(users, (u: User) => u.email == email)
  }

  /** `Account.findOne({ user_id })`. */
  function AccountByUser(accounts: seq<Account>, userId: Oid): Option<nat> {
    FindFirst(accounts, (a: Account) => a.userId == userId)
  }

  /** `Account.findById(id)`. */
  function AccountById(accounts: seq<Account>, id: Oid): Option<nat> {
    FindFirst(accounts, (a: Account) => a.id == id)
  }

  /** `FailedAttempt.findOne({ user_id })`. */
  function AttemptByUser(attempts: seq<FailedAttempt>, userId: Oid): Option<nat> {
    FindFirst(attempts, (a: FailedAttempt) => a.userId == userId)
  }

  /** `Session.findOne({ user_id, token })`. */
  function SessionByUserAndToken(sessions: seq<Session>, userId: Oid, token: Token): Option<nat> {
    FindFirst(sessions, (s: Session) => s.userId == userId && s.token == token)
  }

  /** `Session.findOne({ token })`. */
  function SessionByToken(sessions: seq<Session>, token: Token): Option<nat> {
    FindFirst(sessions, (s: Session) => s.token == token)
  }

  /** The store with the session at `i` marked revoked and nothing else changed. */
  function RevokeAt(sessions: seq<Session>, i: nat): (r: seq<Session>)
    requires i < |sessions|
    ensures |r| == |sessions| && r[i].revocada
    ensures r[i] == sessions[i].(revocada := true)
    ensures forall j :: 0 <= j < |r| && j != i ==> r[j] == sessions[j]
  {
    sessions[i := sessions[i].(revocada := true)]
  }
}
