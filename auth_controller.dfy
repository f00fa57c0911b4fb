/** The account handlers of the server: `signup` and `login` over the user
    collection, looked up by email. bcrypt's `hash` and `compare` and
    `jwt.sign` are parameters; each returns `Fail(message)` where the library
    throws, and the handler's `catch` answers `{ success: false, message }`.
    `now` is the clock reading, in seconds, that `jwt.sign` stamps as `iat`. */
module AuthController {
  import opened Wrappers
  import opened AuthMiddleware

  /** A persisted user; `password` holds the bcrypt hash. */
  datatype User = User(id: UserId, name: string, email: string, password: string)

  /** What `jwt.sign` is given: the payload `{ id, email }`, the `expiresIn`
      option and the issue time it reads from the clock. */
  datatype SignRequest = SignRequest(id: UserId, email: string, expiresIn: string, issuedAt: int)

  /** `{ success: true, token }` or `{ success: false, message }`. */
  datatype AuthReply = Token(token: string) | Refused(message: string)

  const SaltRounds: nat := 10
  const TokenLifetime: string := "1d"
  const UserExistsMessage: string := "User already exists"
  const UserNotFoundMessage: string := "User not found"
  const InvalidPasswordMessage: string := "Invalid password"

  /** The token request for a user at time `now`: signed over its id and email, valid one day. */
  function TokenRequestFor(user: User, now: int): SignRequest
  {
    SignRequest(user.id, user.email, TokenLifetime, now)
  }

  class UserStore {
    var users: map<string, User>
    var nextId: nat

    /** Each user is filed under its own email; ids below `nextId` are used. */
    ghost predicate Valid()
      reads this
    {
      forall e :: e in users ==> users[e].email == e && users[e].id < nextId
    }

    constructor ()
      ensures Valid() && users == map[]
    {
      users := map[];
      nextId := 0;
    }

    /** `signup`: refuse a known email, otherwise store the hashed password and sign a token. */
    method Signup(name: string, email: string, password: string, now: int,
                  hash: (string, nat) -> Result<string>, sign: SignRequest -> Result<string>)
      returns (reply: AuthReply)
      requires Valid()
      modifies this
      ensures Valid()
      ensures email in old(users) ==> reply == Refused(UserExistsMessage) && users == old(users)
      ensures email !in old(users) && hash(password, SaltRounds).Fail? ==>
        reply == Refused(hash(password, SaltRounds).message) && users == old(users)
      ensures email !in old(users) && hash(password, SaltRounds).Ok? ==>
        var user := User(old(nextId), name, email, hash(password, SaltRounds).value);
        users == old(users)[email := user] &&
        reply == match sign(TokenRequestFor(user, now))
          case Ok(t) => Token(t)
          case Fail(m) => Refused(m)
    {
      if email in users {
        return Refused(UserExistsMessage);
      }
      var hashed := hash(password, SaltRounds);
      if hashed.Fail? {
        return Refused(hashed.message);
      }
      var user := User(nextId, name, email, hashed.value);
      users := users[email := user];
      nextId := nextId + 1;
      var token := sign(TokenRequestFor(user, now));
      if token.Fail? {
        return Refused(token.message);
      }
      reply := Token(token.value);
    }

    /** `login`: unknown email, wrong password, or a token for the stored user. */
    method Login(email: string, password: string, now: int,
                 compare: (string, string) -> Result<bool>, sign: SignRequest -> Result<string>)
      returns (reply: AuthReply)
      requires Valid()
      ensures email !in users ==> reply == Refused(UserNotFoundMessage)
      ensures email in users && compare(password, users[email].password).Fail? ==>
        reply == Refused(compare(password, users[email].password).message)
      ensures email in users && compare(password, users[email].password) == Ok(false) ==>
        reply == Refused(InvalidPasswordMessage)
      ensures reply.Token? <==>
        email in users && compare(password, users[email].password) == Ok(true) &&
        sign(TokenRequestFor(users[email], now)).Ok?
      ensures reply.Token? ==> sign(TokenRequestFor(users[email], now)) == Ok(reply.token)
      ensures reply.Token? ==> sign(SignRequest(users[email].id, email, TokenLifetime, now)) == Ok(reply.token)
      ensures email in users && compare(password, users[email].password) == Ok(true) &&
              sign(TokenRequestFor(users[email], now)).Fail? ==>
        reply == Refused(sign(TokenRequestFor(users[email], now)).message)
    {
      if email !in users {
        return Refused(UserNotFoundMessage);
      }
      var user := users[email];
      var isMatch := compare(password, user.password);
      if isMatch.Fail? {
        return Refused(isMatch.message);
      }
      if !isMatch.value {
        return Refused(InvalidPasswordMessage);
      }
      var token := sign(TokenRequestFor(user, now));
      if token.Fail? {
        return Refused(token.message);
      }
      reply := Token(token.value);
    }
  }

  /** A fresh account can log in with the password it signed up with, when
      `compare` accepts a password against its own hash. Both replies come
      from signing the same payload and lifetime; they differ only in the issue
      time, so the two replies are equal when both happen at the same second. */
  method SignupThenLogin(store: UserStore, name: string, email: string, password: string,
                         signupNow: int, loginNow: int,
                         hash: (string, nat) -> Result<string>,
                         compare: (string, string) -> Result<bool>,
                         sign: SignRequest -> Result<string>)
    returns (signedUp: AuthReply, loggedIn: AuthReply)
    requires store.Valid() && email !in store.users
    requires hash(password, SaltRounds).Ok? && compare(password, hash(password, SaltRounds).value) == Ok(true)
    modifies store
    ensures signedUp == match sign(SignRequest(old(store.nextId), email, TokenLifetime, signupNow))
      case Ok(t) => Token(t)
      case Fail(m) => Refused(m)
    ensures loggedIn == match sign(SignRequest(old(store.nextId), email, TokenLifetime, loginNow))
      case Ok(t) => Token(t)
      case Fail(m) => Refused(m)
    ensures signupNow == loginNow ==> signedUp == loggedIn
  {
    signedUp := store.Signup(name, email, password, signupNow, hash, sign);
    loggedIn := store.Login(email, password, loginNow, compare, sign);
  }
}
