/** Shared vocabulary of the backend model: optional values, MongoDB object ids,
    instants, opaque tokens, bcrypt hashes and the truthiness of request strings. */
module Base {

  datatype Option<+T> = None | Some(value: T)

  /** A MongoDB ObjectId. All collections draw their ids from one space. */
  type Oid = nat

  /** An instant in milliseconds since the epoch, as a JavaScript `Date` holds it. */
  type Time = int

  /** A signed JWT; its contents are never inspected by the modelled code. */
  type Token = string

  type Password = string

  const HourMs: int := 60 * 60 * 1000
  const DayMs: int := 24 * HourMs

  /** An `if (x)` test on a request string: a missing value is modelled as "",
      and "" is the only falsy string. */
  predicate Truthy(s: string) {
    s != ""
  }

  /** A bcrypt hash: the random salt it was made with and the password it commits to.
      The model assumes bcrypt has no collisions. */
  datatype Hash = Bcrypt(salt: nat, secret: Password)

  /** `bcrypt.compare(password, h)`. */
  predicate Matches(password: Password, h: Hash) {
    h.secret == password
  }

  /** `hashPassword`: bcrypt with a fresh salt, which the caller supplies. */
  function HashPassword(password: Password, salt: nat): (h: Hash)
    ensures Matches(password, h)
    ensures forall other: Password :: Matches(other, h) ==> other == password
  {
    Bcrypt(salt, password)
  }

  /** What a middleware does with a request: pass it on (`next()`) or answer it
      with an error status. */
  datatype Gate = Next | Reject(status: int)
}
